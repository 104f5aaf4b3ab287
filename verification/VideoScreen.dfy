/** What is on the screen, in terms of the bytes in the card's memory: where each kind of layer and the
    sprites take a pixel from, and which of them is seen. */
module VideoScreen {
  import opened Words
  import opened VideoMemory
  import opened VideoPicture

  // ---- the bytes of memory and of the settings ----

  function At(m: Memory, a: nat): int
    requires a < 0x100_0000
  {
    m[a] as int
  }

  /** A byte of video memory, whose addresses wrap around. */
  function V(m: Memory, a: int): int { At(m, a % 0x4_0000) }

  function Word16(m: Memory, a: nat): int
    requires a + 1 < 0x100_0000
  {
    0x100 * At(m, a) + At(m, a + 1)
  }

  function Word24(m: Memory, a: nat): int
    requires a + 2 < 0x100_0000
  {
    0x1_0000 * At(m, a) + 0x100 * At(m, a + 1) + At(m, a + 2)
  }

  function Signed16(m: Memory, a: nat): int
    requires a + 1 < 0x100_0000
  {
    if Word16(m, a) < 0x8000 then Word16(m, a) else Word16(m, a) - 0x1_0000
  }

  /** Where a layer's settings are: its mode, the size of its map, and from there the addresses of map and
      tiles, the scroll offsets, the bytes of a row and the palette. */
  function Settings(k: nat): int { 0x4_0010 + 0x10 * k }

  function Kind(m: Memory, k: nat): int
    requires k < 3
  {
    At(m, Settings(k)) % 4
  }

  /** The pixels of the picture that are one of the layer's, across and down. */
  function Zoom(m: Memory, k: nat): (s: int)
    requires k < 3
    ensures s > 0
  {
    if At(m, Settings(k)) / 4 % 2 == 1 then 1 else 2
  }

  function Depth(m: Memory, k: nat): int
    requires k < 3
  {
    [1, 2, 4, 8][At(m, Settings(k)) / 8 % 4]
  }

  function Size(m: Memory, k: nat): (s: int)
    requires k < 3
    ensures s > 0
  {
    if At(m, Settings(k)) / 32 % 2 == 1 then 16 else 8
  }

  function MapWidth(m: Memory, k: nat): (w: int)
    requires k < 3
    ensures w > 0
  {
    [32, 64, 128, 256][At(m, Settings(k) + 1) % 4]
  }

  function MapHeight(m: Memory, k: nat): (h: int)
    requires k < 3
    ensures h > 0
  {
    [32, 64, 128, 256][At(m, Settings(k) + 1) / 4 % 4]
  }

  function MapBase(m: Memory, k: nat): int
    requires k < 3
  {
    Word24(m, Settings(k) + 2)
  }

  function TileBase(m: Memory, k: nat): int
    requires k < 3
  {
    Word24(m, Settings(k) + 5)
  }

  /** The point of a layer at a pixel of the picture. */
  function LayerX(m: Memory, k: nat, x: nat): int
    requires k < 3
  {
    x / Zoom(m, k) + Signed16(m, Settings(k) + 8)
  }

  function LayerY(m: Memory, k: nat, y: nat): int
    requires k < 3
  {
    y / Zoom(m, k) + Signed16(m, Settings(k) + 10)
  }

  /** A layer as its settings describe it. */
  predicate Described(m: Memory, k: nat, l: Layer)
    requires k < 3
  {
    && l.kind == Kind(m, k) && (if l.hires then 1 else 2) == Zoom(m, k) && l.bpp == Depth(m, k) && IsDepth(l.bpp)
    && (if l.big then 16 else 8) == Size(m, k) && l.mapW == MapWidth(m, k) && l.mapH == MapHeight(m, k)
    && l.mapBase == MapBase(m, k) && l.tileBase == TileBase(m, k)
    && l.hscroll == Signed16(m, Settings(k) + 8) && l.vscroll == Signed16(m, Settings(k) + 10)
    && l.stride == Word16(m, Settings(k) + 12) && l.palette == At(m, Settings(k) + 14)
  }

  lemma ModeIs(m: Memory, k: nat)
    requires k < 3
    ensures var l := LayerOf(m, k);
            && l.kind == Kind(m, k) && (if l.hires then 1 else 2) == Zoom(m, k) && l.bpp == Depth(m, k)
            && (if l.big then 16 else 8) == Size(m, k)
  {
    DepthCode(At(m, Settings(k)) / 8 % 4);
  }

  lemma DepthCode(code: nat)
    requires code < 4
    ensures Bits(code) == [1, 2, 4, 8][code] && Cells(code) == [32, 64, 128, 256][code]
  {
  }

  lemma MapIs(m: Memory, k: nat)
    requires k < 3
    ensures var l := LayerOf(m, k); l.mapW == MapWidth(m, k) && l.mapH == MapHeight(m, k)
  {
    DepthCode(At(m, Settings(k) + 1) % 4);
    DepthCode(At(m, Settings(k) + 1) / 4 % 4);
  }

  lemma AddressesAre(m: Memory, k: nat)
    requires k < 3
    ensures var l := LayerOf(m, k);
            && l.mapBase == MapBase(m, k) && l.tileBase == TileBase(m, k)
            && l.hscroll == Signed16(m, Settings(k) + 8) && l.vscroll == Signed16(m, Settings(k) + 10)
            && l.stride == Word16(m, Settings(k) + 12) && l.palette == At(m, Settings(k) + 14)
  {
  }

  lemma SettingsAre(m: Memory, k: nat)
    requires k < 3
    ensures Described(m, k, LayerOf(m, k))
  {
    ModeIs(m, k);
    MapIs(m, k);
    AddressesAre(m, k);
  }

  /** A position that is a whole number of maps away from another is the same in the map. */
  predicate Repeats(v: int, at: int, size: int) { size > 0 && 0 <= at < size && (v - at) % size == 0 }

  /** A pixel of the picture shows the place (i, j) in the cell (cx, cy) of a layer's map, whose cells are so
      many pixels wide and high: the map repeats across and down, and is scrolled. */
  predicate InCell(m: Memory, k: nat, x: nat, y: nat, w: nat, h: nat, cx: nat, cy: nat, i: nat, j: nat)
    requires k < 3
  {
    && i < w && j < h
    && Repeats(LayerX(m, k, x), w * cx + i, w * MapWidth(m, k))
    && Repeats(LayerY(m, k, y), h * cy + j, h * MapHeight(m, k))
  }

  lemma RepeatsIs(v: int, at: int, size: int)
    requires Repeats(v, at, size)
    ensures v % size == at
  {
    DivMod(v - at, size);
    DivUnique(v, size, (v - at) / size, at);
  }

  /** Every pixel of the picture shows one. */
  lemma SomeCell(m: Memory, k: nat, x: nat, y: nat, w: nat, h: nat) returns (cx: nat, cy: nat, i: nat, j: nat)
    requires k < 3 && w > 0 && h > 0
    ensures cx < MapWidth(m, k) && cy < MapHeight(m, k) && InCell(m, k, x, y, w, h, cx, cy, i, j)
  {
    cx, i := PlaceIn(LayerX(m, k, x), w, MapWidth(m, k));
    cy, j := PlaceIn(LayerY(m, k, y), h, MapHeight(m, k));
  }

  lemma WholeAway(v: int, size: nat)
    requires size > 0
    ensures Repeats(v, v % size, size)
  {
    DivMod(v, size);
    DivUnique(v - v % size, size, v / size, 0);
  }

  lemma PlaceIn(v: int, w: nat, n: nat) returns (c: nat, i: nat)
    requires w > 0 && n > 0
    ensures c < n && i < w && Repeats(v, w * c + i, w * n)
  {
    MulMono(1, n, w);
    var at := v % (w * n);
    WholeAway(v, w * n);
    c, i := Div(at, w), at % w;
    DivMod(at, w);
    if c >= n {
      MulMono(n, c, w);
    }
  }

  // ---- text ----

  lemma CellAt(at: nat, c: nat, i: nat, size: nat)
    requires at == size * c + i && i < size
    ensures Div(at, size) == c && at % size == i
  {
    DivUnique(at, size, c, i);
  }

  lemma GlyphBit(b: byte, i: nat)
    requires i < 8
    ensures Flag(b, Pow2(7 - i)) == (b / [0x80, 0x40, 0x20, 0x10, 8, 4, 2, 1][i] % 2 == 1)
  {
    assert Pow2(0) == 1 && Pow2(1) == 2 && Pow2(2) == 4 && Pow2(3) == 8;
    assert Pow2(4) == 16 && Pow2(5) == 32 && Pow2(6) == 64 && Pow2(7) == 128;
  }

  /** The byte shown at pixel (i, j) of a cell of a text map: the cell's second where the glyph of its
      character, the first byte, has a 1, and its third where that has a 0. A glyph has a byte for each row,
      the leftmost pixel highest. */
  function CellPixel(m: Memory, cells: int, width: int, glyphs: int, height: int, cx: int, cy: int, i: nat, j: int): int
    requires i < 8
  {
    var cell := cells + 4 * (cy * width + cx);
    var glyph := V(m, glyphs + V(m, cell) * height + j);
    if glyph / [0x80, 0x40, 0x20, 0x10, 8, 4, 2, 1][i] % 2 == 1 then V(m, cell + 1) else V(m, cell + 2)
  }

  lemma TextParts(m: Memory, l: Layer, lx: nat, ly: nat, px: nat, py: nat, fh: nat, cell: nat, ch: nat, glyph: byte)
    requires l.mapW > 0 && l.mapH > 0 && fh == if l.big then 16 else 8
    requires px == (lx + l.hscroll) % (8 * l.mapW) && py == (ly + l.vscroll) % (fh * l.mapH)
    requires cell == l.mapBase + 4 * CellIndex(l, px, py, 8, fh) && ch == V(m, cell)
    requires glyph == V(m, l.tileBase + ch * fh + py % fh)
    ensures TextPixel(m, l, lx, ly) == V(m, cell + if Flag(glyph, Pow2(7 - px % 8)) then 1 else 2)
  {
  }

  lemma CellIndexIs(l: Layer, px: nat, py: nat, cx: nat, cy: nat, w: nat, h: nat)
    requires w > 0 && h > 0 && Div(px, w) == cx && Div(py, h) == cy
    ensures CellIndex(l, px, py, w, h) == cy * l.mapW + cx
  {
  }

  lemma CellPixelIs(m: Memory, cells: int, width: int, glyphs: int, height: int, cx: int, cy: int, i: nat, j: int,
                    cell: int, glyph: int)
    requires i < 8 && cell == cells + 4 * (cy * width + cx) && glyph == V(m, glyphs + V(m, cell) * height + j)
    ensures CellPixel(m, cells, width, glyphs, height, cx, cy, i, j)
         == if glyph / [0x80, 0x40, 0x20, 0x10, 8, 4, 2, 1][i] % 2 == 1 then V(m, cell + 1) else V(m, cell + 2)
  {
  }

  lemma TextCell(m: Memory, l: Layer, lx: nat, ly: nat, cx: nat, cy: nat, i: nat, j: nat, fh: nat)
    requires l.mapW > 0 && l.mapH > 0 && i < 8 && fh == (if l.big then 16 else 8) && j < fh
    requires (lx + l.hscroll) % (8 * l.mapW) == 8 * cx + i && (ly + l.vscroll) % (fh * l.mapH) == fh * cy + j
    ensures TextPixel(m, l, lx, ly) == CellPixel(m, l.mapBase, l.mapW, l.tileBase, fh, cx, cy, i, j)
  {
    var px, py := 8 * cx + i, fh * cy + j;
    CellAt(px, cx, i, 8);
    CellAt(py, cy, j, fh);
    CellIndexIs(l, px, py, cx, cy, 8, fh);
    var cell := l.mapBase + 4 * CellIndex(l, px, py, 8, fh);
    var ch: int := V(m, cell);
    var glyph := V(m, l.tileBase + Times(ch, fh) + j);
    TextParts(m, l, lx, ly, px, py, fh, cell, ch, glyph);
    GlyphBit(glyph, i);
    CellPixelIs(m, l.mapBase, l.mapW, l.tileBase, fh, cx, cy, i, j, cell, glyph);
  }

  lemma TextLaid(m: Memory, k: nat, l: Layer, x: nat, y: nat, cx: nat, cy: nat, i: nat, j: nat)
    requires k < 3 && Described(m, k, l) && Kind(m, k) == 0
    requires InCell(m, k, x, y, 8, Size(m, k), cx, cy, i, j)
    ensures LayerPixel(m, l, x / Zoom(m, k), y / Zoom(m, k)) == TextByte(m, k, cx, cy, i, j)
  {
    RepeatsIs(LayerX(m, k, x), 8 * cx + i, 8 * MapWidth(m, k));
    RepeatsIs(LayerY(m, k, y), Size(m, k) * cy + j, Size(m, k) * MapHeight(m, k));
    TextCell(m, l, x / Zoom(m, k), y / Zoom(m, k), cx, cy, i, j, Size(m, k));
  }

  function TextByte(m: Memory, k: nat, cx: nat, cy: nat, i: nat, j: nat): int
    requires k < 3 && i < 8
  {
    CellPixel(m, MapBase(m, k), MapWidth(m, k), TileBase(m, k), Size(m, k), cx, cy, i, j)
  }

  /** A text layer shows its map, repeated across and down and scrolled. */
  lemma TextShows(m: Memory, k: nat, x: nat, y: nat, cx: nat, cy: nat, i: nat, j: nat)
    requires k < 3 && Kind(m, k) == 0
    requires InCell(m, k, x, y, 8, Size(m, k), cx, cy, i, j)
    ensures LayerAt(m, k, x, y) == TextByte(m, k, cx, cy, i, j)
  {
    SettingsAre(m, k);
    TextLaid(m, k, LayerOf(m, k), x, y, cx, cy, i, j);
  }

  // ---- packed pixels ----

  /** The j-th pixel of a byte from the left: the leftmost has the highest bits. */
  function PixelOf(b: bv8, bpp: nat, j: nat): bv8
    requires IsDepth(bpp) && j < 8 / bpp
  {
    match bpp
    case 8 => b
    case 4 => if j == 0 then b >> 4 else b & 0x0F
    case 2 => if j == 0 then b >> 6 else if j == 1 then (b >> 4) & 3 else if j == 2 then (b >> 2) & 3 else b & 3
    case _ =>
      if j == 0 then b >> 7 else if j == 1 then (b >> 6) & 1 else if j == 2 then (b >> 5) & 1
      else if j == 3 then (b >> 4) & 1 else if j == 4 then (b >> 3) & 1 else if j == 5 then (b >> 2) & 1
      else if j == 6 then (b >> 1) & 1 else b & 1
  }

  lemma WideField(b: bv8, j: nat)
    requires j < 2
    ensures Field(b, 4, 4 - 4 * j) == PixelOf(b, 4, j)
  {
  }

  lemma PairField(b: bv8, j: nat)
    requires j < 4
    ensures Field(b, 2, 6 - 2 * j) == PixelOf(b, 2, j)
  {
  }

  lemma BitField(b: bv8, j: nat)
    requires j < 8
    ensures Field(b, 1, 7 - j) == PixelOf(b, 1, j)
  {
  }

  lemma FieldIs(b: bv8, bpp: nat, j: nat)
    requires IsDepth(bpp) && j < 8 / bpp
    ensures Field(b, bpp, 8 - bpp - j * bpp) == PixelOf(b, bpp, j)
  {
    if bpp == 8 {
      WholeField(b);
    } else if bpp == 4 {
      WideField(b, j);
    } else if bpp == 2 {
      PairField(b, j);
    } else {
      BitField(b, j);
    }
  }

  /** Pixel n of a row of packed pixels is in byte n * bpp / 8 of it. */
  lemma BitOf(n: int, bpp: nat)
    requires IsDepth(bpp)
    ensures n * bpp % 8 == n % (8 / bpp) * bpp
  {
    if bpp == 8 {
    } else if bpp == 4 {
    } else if bpp == 2 {
    } else {
    }
  }

  /** The colour of a target's pixel is in the bits of memory the card's address arithmetic says. */
  lemma PixelIs(m: Memory, t: Target, p: Point)
    requires IsDepth(t.bpp)
    ensures Pixel(m, t, p)
         == PixelOf(m[(t.addr + p.y * t.stride + p.x * t.bpp / 8) % 0x100_0000], t.bpp, p.x % (8 / t.bpp))
  {
    BitOf(p.x, t.bpp);
    PlaceIsPlace(t, p);
    FieldIs(m[AddressOf(t, p)], t.bpp, p.x % (8 / t.bpp));
  }

  /** The n-th of the pixels packed from an address of video memory on. */
  function Nth(m: Memory, base: int, n: int, bpp: nat): bv8
    requires IsDepth(bpp)
  {
    PixelOf(m[(base + n * bpp / 8) % 0x4_0000], bpp, n % (8 / bpp))
  }

  /** A pixel's number in the palette; 0 is transparent. */
  function Shade(v: bv8, bpp: nat, palette: int): int {
    if bpp == 8 || v == 0 then v as int else (0x10 * palette + v as int) % 0x100
  }

  lemma PackedBit(m: Memory, base: nat, bit: nat, bpp: nat, palette: nat, j: nat)
    requires IsDepth(bpp) && j < 8 / bpp && bit % 8 == j * bpp
    ensures Packed(m, base, bit, bpp, palette)
         == Shade(PixelOf(m[(base + bit / 8) % 0x4_0000], bpp, j), bpp, palette)
  {
    FieldIs(m[(base + bit / 8) % 0x4_0000], bpp, j);
  }

  lemma PackedIs(m: Memory, base: nat, n: nat, bpp: nat, palette: nat)
    requires IsDepth(bpp)
    ensures Packed(m, base, Times(n, bpp), bpp, palette) == Shade(Nth(m, base, n, bpp), bpp, palette)
  {
    BitOf(n, bpp);
    PackedBit(m, base, Times(n, bpp), bpp, palette, n % (8 / bpp));
  }

  // ---- bitmaps ----

  /** Pixel (px, py) of a bitmap, and nothing outside its rows. */
  function RowPixel(m: Memory, base: int, stride: int, bpp: nat, palette: int, px: int, py: int): int
    requires IsDepth(bpp)
  {
    if 0 <= px < stride * 8 / bpp && 0 <= py then Shade(Nth(m, base + py * stride, px, bpp), bpp, palette) else 0
  }

  lemma RowPacked(m: Memory, base: nat, stride: nat, bpp: nat, palette: nat, px: nat, py: nat)
    requires IsDepth(bpp) && px < stride * 8 / bpp
    ensures Packed(m, base + Times(py, stride), Times(px, bpp), bpp, palette)
         == RowPixel(m, base, stride, bpp, palette, px, py)
  {
    PackedIs(m, base + Times(py, stride), px, bpp, palette);
  }

  lemma BitmapRow(m: Memory, l: Layer, lx: nat, ly: nat)
    requires IsDepth(l.bpp)
    ensures BitmapPixel(m, l, lx, ly)
         == RowPixel(m, l.mapBase, l.stride, l.bpp, l.palette, lx + l.hscroll, ly + l.vscroll)
  {
    var px, py := lx + l.hscroll, ly + l.vscroll;
    if 0 <= px < l.stride * 8 / l.bpp && 0 <= py {
      RowPacked(m, l.mapBase, l.stride, l.bpp, l.palette, px, py);
    }
  }

  function BitmapByte(m: Memory, k: nat, px: int, py: int): int
    requires k < 3 && IsDepth(Depth(m, k))
  {
    RowPixel(m, MapBase(m, k), Word16(m, Settings(k) + 12), Depth(m, k), At(m, Settings(k) + 14), px, py)
  }

  lemma BitmapLaid(m: Memory, k: nat, l: Layer, x: nat, y: nat)
    requires k < 3 && Described(m, k, l) && Kind(m, k) == 2 && l.mapW > 0 && l.mapH > 0
    ensures LayerPixel(m, l, x / Zoom(m, k), y / Zoom(m, k)) == BitmapByte(m, k, LayerX(m, k, x), LayerY(m, k, y))
  {
    BitmapRow(m, l, x / Zoom(m, k), y / Zoom(m, k));
  }

  /** A bitmap layer shows the pixels packed in its rows, and nothing outside them. */
  lemma BitmapShows(m: Memory, k: nat, x: nat, y: nat)
    requires k < 3 && Kind(m, k) == 2
    ensures IsDepth(Depth(m, k)) && LayerAt(m, k, x, y) == BitmapByte(m, k, LayerX(m, k, x), LayerY(m, k, y))
  {
    SettingsAre(m, k);
    BitmapLaid(m, k, LayerOf(m, k), x, y);
  }

  // ---- tiles ----

  function Mirrored(i: nat, size: nat, flip: bool): int { if flip then size - 1 - i else i }

  /** Pixel (i, j) of what the entry `e` of a map shows: that of a tile, in its place or in the place
      mirrored in it, across, down or both, as two bits of the entry say. */
  function TileByte(m: Memory, tiles: int, size: nat, bpp: nat, e: int, i: nat, j: nat): int
    requires IsDepth(bpp)
  {
    var tile := tiles + e % 0x400 * (size * size * bpp / 8);
    var col, row := Mirrored(i, size, e / 0x400 % 2 == 1), Mirrored(j, size, e / 0x800 % 2 == 1);
    Shade(Nth(m, tile, row * size + col, bpp), bpp, e / 0x1000)
  }

  lemma TilePacked(m: Memory, base: nat, n: nat, bpp: nat, palette: nat, tiles: int, size: nat, e: int, i: nat, j: nat)
    requires IsDepth(bpp) && palette == e / 0x1000
    requires base == tiles + e % 0x400 * (size * size * bpp / 8)
    requires n == Mirrored(j, size, e / 0x800 % 2 == 1) * size + Mirrored(i, size, e / 0x400 % 2 == 1)
    ensures Packed(m, base, Times(n, bpp), bpp, palette) == TileByte(m, tiles, size, bpp, e, i, j)
  {
    PackedIs(m, base, n, bpp, palette);
  }

  lemma InTileIs(at: nat, c: nat, i: nat, size: nat, flip: bool)
    requires at == size * c + i && i < size
    ensures Div(at, size) == c && InTile(at, size, flip) == Mirrored(i, size, flip)
  {
    CellAt(at, c, i, size);
  }

  /** What the program takes from an entry and a place in its cell. */
  lemma TileParts(m: Memory, l: Layer, lx: nat, ly: nat, px: nat, py: nat, ts: nat, e: nat, tx: nat, ty: nat)
    requires l.mapW > 0 && l.mapH > 0 && ts == if l.big then 16 else 8
    requires px == (lx + l.hscroll) % (ts * l.mapW) && py == (ly + l.vscroll) % (ts * l.mapH)
    requires e == Be16(m, (l.mapBase + 2 * CellIndex(l, px, py, ts, ts)) % VRAM_SIZE)
    requires tx == InTile(px, ts, e / 0x400 % 2 == 1) && ty == InTile(py, ts, e / 0x800 % 2 == 1)
    ensures TilePixel(m, l, lx, ly)
         == Packed(m, l.tileBase + Times(e % 0x400, ts * ts * l.bpp / 8), Times(ty * ts + tx, l.bpp), l.bpp, e / 0x1000)
  {
  }

  lemma EntryIs(m: Memory, l: Layer, px: nat, py: nat, cx: nat, cy: nat, ts: nat)
    requires ts > 0 && Div(px, ts) == cx && Div(py, ts) == cy
    ensures Be16(m, (l.mapBase + 2 * CellIndex(l, px, py, ts, ts)) % VRAM_SIZE)
         == Word16(m, (l.mapBase + 2 * (cy * l.mapW + cx)) % 0x4_0000)
  {
    CellIndexIs(l, px, py, cx, cy, ts, ts);
  }

  lemma TileTaken(m: Memory, tiles: nat, ts: nat, bpp: nat, e: nat, i: nat, j: nat, col: nat, row: nat)
    requires IsDepth(bpp)
    requires col == Mirrored(i, ts, e / 0x400 % 2 == 1) && row == Mirrored(j, ts, e / 0x800 % 2 == 1)
    ensures Packed(m, tiles + Times(e % 0x400, ts * ts * bpp / 8), Times(row * ts + col, bpp), bpp, e / 0x1000)
         == TileByte(m, tiles, ts, bpp, e, i, j)
  {
    var base, n := tiles + Times(e % 0x400, ts * ts * bpp / 8), Times(row, ts) + col;
    TilePacked(m, base, n, bpp, e / 0x1000, tiles, ts, e, i, j);
  }

  lemma TileCell(m: Memory, l: Layer, lx: nat, ly: nat, cx: nat, cy: nat, i: nat, j: nat, ts: nat, e: nat)
    requires l.mapW > 0 && l.mapH > 0 && IsDepth(l.bpp) && ts == (if l.big then 16 else 8) && i < ts && j < ts
    requires (lx + l.hscroll) % (ts * l.mapW) == ts * cx + i && (ly + l.vscroll) % (ts * l.mapH) == ts * cy + j
    requires e == Word16(m, (l.mapBase + 2 * (cy * l.mapW + cx)) % 0x4_0000)
    ensures TilePixel(m, l, lx, ly) == TileByte(m, l.tileBase, ts, l.bpp, e, i, j)
  {
    var px, py := ts * cx + i, ts * cy + j;
    InTileIs(px, cx, i, ts, e / 0x400 % 2 == 1);
    InTileIs(py, cy, j, ts, e / 0x800 % 2 == 1);
    EntryIs(m, l, px, py, cx, cy, ts);
    var col, row := InTile(px, ts, e / 0x400 % 2 == 1), InTile(py, ts, e / 0x800 % 2 == 1);
    TileParts(m, l, lx, ly, px, py, ts, e, col, row);
    TileTaken(m, l.tileBase, ts, l.bpp, e, i, j, col, row);
  }

  /** The entry of a map's cell. */
  function Entry(m: Memory, k: nat, cx: nat, cy: nat): int
    requires k < 3
  {
    Word16(m, (MapBase(m, k) + 2 * (cy * MapWidth(m, k) + cx)) % 0x4_0000)
  }

  lemma TileLaid(m: Memory, k: nat, l: Layer, x: nat, y: nat, cx: nat, cy: nat, i: nat, j: nat)
    requires k < 3 && Described(m, k, l) && Kind(m, k) == 1
    requires InCell(m, k, x, y, Size(m, k), Size(m, k), cx, cy, i, j)
    ensures LayerPixel(m, l, x / Zoom(m, k), y / Zoom(m, k))
         == TileByte(m, TileBase(m, k), Size(m, k), Depth(m, k), Entry(m, k, cx, cy), i, j)
  {
    RepeatsIs(LayerX(m, k, x), Size(m, k) * cx + i, Size(m, k) * MapWidth(m, k));
    RepeatsIs(LayerY(m, k, y), Size(m, k) * cy + j, Size(m, k) * MapHeight(m, k));
    TileCell(m, l, x / Zoom(m, k), y / Zoom(m, k), cx, cy, i, j, Size(m, k), Entry(m, k, cx, cy));
  }

  /** A tile layer shows at pixel (i, j) of a cell of its map what the entry there says. */
  lemma TileShows(m: Memory, k: nat, x: nat, y: nat, cx: nat, cy: nat, i: nat, j: nat)
    requires k < 3 && Kind(m, k) == 1
    requires InCell(m, k, x, y, Size(m, k), Size(m, k), cx, cy, i, j)
    ensures IsDepth(Depth(m, k))
    ensures LayerAt(m, k, x, y)
         == TileByte(m, TileBase(m, k), Size(m, k), Depth(m, k), Entry(m, k, cx, cy), i, j)
  {
    SettingsAre(m, k);
    TileLaid(m, k, LayerOf(m, k), x, y, cx, cy, i, j);
  }

  // ---- what was drawn ----

  lemma SameByte(a: nat)
    requires a < 0x4_0000
    ensures a % 0x100_0000 == a && a % 0x4_0000 == a
  {
  }

  lemma RowInside(t: Target, p: Point)
    requires Sound(t) && Inside(t, p) && t.addr + t.h * t.stride <= 0x4_0000
    ensures 0 <= t.addr + p.y * t.stride + p.x * t.bpp / 8 < 0x4_0000
  {
    BitsInRow(t, p);
    MulMono(0, p.y, t.stride);
    MulMono(p.y + 1, t.h, t.stride);
    MulDist(p.y, 1, t.stride);
  }

  lemma InStride(bpp: nat, stride: nat, w: nat, x: nat)
    requires IsDepth(bpp) && x < w && w * bpp <= stride * 8
    ensures x < stride * 8 / bpp
  {
    if bpp == 8 {
    } else if bpp == 4 {
    } else if bpp == 2 {
    } else {
    }
  }

  /** A pixel of a target in video memory, and the same pixel of it as a bitmap. */
  lemma TargetPixel(m: Memory, t: Target, p: Point, palette: int)
    requires Sound(t) && Inside(t, p) && t.addr + t.h * t.stride <= 0x4_0000
    ensures RowPixel(m, t.addr, t.stride, t.bpp, palette, p.x, p.y) == Shade(Pixel(m, t, p), t.bpp, palette)
  {
    PixelIs(m, t, p);
    RowInside(t, p);
    InStride(t.bpp, t.stride, t.w, p.x);
    SameByte(t.addr + p.y * t.stride + p.x * t.bpp / 8);
  }

  /** A bitmap layer whose map is a drawing target shows what is painted there, and all else as it was. */
  lemma TargetShows(before: Memory, after: Memory, t: Target, points: iset<Point>, color: bv8, k: nat, x: nat, y: nat)
    requires k < 3 && Kind(after, k) == 2 && Depth(after, k) == t.bpp
    requires t.addr == MapBase(after, k) && t.stride == Word16(after, Settings(k) + 12)
    requires Sound(t) && t.addr + t.h * t.stride <= 0x4_0000 && Painted(before, after, t, points, color)
    requires Inside(t, Point(LayerX(after, k, x), LayerY(after, k, y)))
    ensures var p := Point(LayerX(after, k, x), LayerY(after, k, y));
            LayerAt(after, k, x, y)
              == Shade(if p in points then color & [1, 3, 0, 0xF, 0, 0, 0, 0xFF][t.bpp - 1] else Pixel(before, t, p),
                       t.bpp, At(after, Settings(k) + 14))
  {
    var p := Point(LayerX(after, k, x), LayerY(after, k, y));
    BitmapShows(after, k, x, y);
    PaintedPixel(before, after, t, points, color, p);
    TargetPixel(after, t, p, At(after, Settings(k) + 14));
  }

  // ---- sprites ----

  /** The 8 bytes of a sprite's attributes: where its image is, in steps of 32 bytes, its place, its shape
      and its look. */
  predicate DescribedBy(s: Sprite, m: Memory, a: nat)
    requires a < 0x4_0000
  {
    var shape, look := At(m, a + 6), At(m, a + 7);
    && s.image == 0x20 * Word16(m, a) && s.x == Signed16(m, a + 2) && s.top == Signed16(m, a + 4)
    && s.prio == shape / 0x40 && s.vflip == (shape / 0x20 % 2 == 1) && s.hflip == (shape / 0x10 % 2 == 1)
    && s.h == [8, 16, 32, 64][shape / 4 % 4] && s.w == [8, 16, 32, 64][shape % 4]
    && s.bpp == (if look >= 0x80 then 8 else 4) && s.palette == look % 0x10
  }

  lemma SpriteIs(m: Memory, a: nat)
    requires a < 0x4_0000
    ensures DescribedBy(SpriteOf(m, a), m, a)
  {
    SideCode(At(m, a + 6) % 4);
    SideCode(At(m, a + 6) / 4 % 4);
    LookBits(At(m, a + 7));
  }

  lemma SideCode(code: nat)
    requires code < 4
    ensures Side(code) == [8, 16, 32, 64][code]
  {
  }

  lemma LookBits(look: byte)
    ensures (look / 128 % 2 == 1) == (look >= 0x80)
  {
  }

  function EntryAddress(m: Memory, i: nat): int { (Word24(m, 0x4_0004) + 8 * i) % 0x4_0000 }

  function Limit(m: Memory): int { if At(m, 0x4_0003) > 128 then 128 else At(m, 0x4_0003) }

  /** The sprites are those whose attributes the table has, up to 128 and up to the first that would run out
      of video memory. */
  lemma TableIs(m: Memory, i: nat)
    ensures i < |Table(m)| <==> i < Limit(m) && forall j :: 0 <= j <= i ==> EntryAddress(m, j) <= 0x3_FFF8
    ensures i < |Table(m)| ==> DescribedBy(Table(m)[i], m, EntryAddress(m, i))
  {
    forall j: nat
      ensures AttrOf(m, j) == EntryAddress(m, j)
      ensures TableEnds(m, j) <==> j >= Limit(m) || EntryAddress(m, j) > 0x3_FFF8
    {
    }
    var n := TableSize(m, 0);
    if i < n {
      SpriteIs(m, EntryAddress(m, i));
      forall j | 0 <= j <= i
        ensures EntryAddress(m, j) <= 0x3_FFF8
      {
        assert !TableEnds(m, j);
      }
    } else {
      assert TableEnds(m, n);
    }
  }

  /** Row r and column c of a sprite, from the picture's side: the image's, mirrored if the sprite is. */
  function SpriteByte(m: Memory, s: Sprite, c: int, r: int): int
    requires IsDepth(s.bpp)
  {
    var col, row := if s.hflip then s.w - 1 - c else c, if s.vflip then s.h - 1 - r else r;
    Shade(Nth(m, s.image, row * s.w + col, s.bpp), s.bpp, s.palette)
  }

  lemma SpriteTaken(m: Memory, s: LineSprite, c: nat, r: nat, col: nat)
    requires IsDepth(s.sprite.bpp) && c < s.sprite.w
    requires col == if s.sprite.hflip then s.sprite.w - 1 - c else c
    requires s.row == if s.sprite.vflip then s.sprite.h - 1 - r else r
    ensures SpritePixel(m, s, s.sprite.x + c) == SpriteByte(m, s.sprite, c, r)
  {
    PackedIs(m, s.sprite.image, Times(s.row, s.sprite.w) + col, s.sprite.bpp, s.sprite.palette);
  }

  lemma SpriteOff(m: Memory, s: LineSprite, sx: int)
    requires !(0 <= sx - s.sprite.x < s.sprite.w)
    ensures SpritePixel(m, s, sx) == 0
  {
  }

  /** A sprite crosses the lines from its top on, and covers its own columns from its place on. */
  lemma SpriteShows(m: Memory, s: Sprite, sx: int, sy: nat)
    requires IsDepth(s.bpp)
    ensures Crosses(s, sy) <==> s.prio != 0 && 0 <= sy - s.top < s.h
    ensures Crosses(s, sy) ==>
              SpritePixel(m, VideoPicture.Cut(s, sy), sx)
                == if 0 <= sx - s.x < s.w then SpriteByte(m, s, sx - s.x, sy - s.top) else 0
  {
    if Crosses(s, sy) {
      var line := VideoPicture.Cut(s, sy);
      if 0 <= sx - s.x < s.w {
        var c := sx - s.x;
        SpriteTaken(m, line, c, sy - s.top, if s.hflip then s.w - 1 - c else c);
      } else {
        SpriteOff(m, line, sx);
      }
    }
  }

  /** Sprites have pixels of one or two of the picture's. */
  function SpriteZoom(m: Memory): (s: int)
    ensures s > 0
  {
    if At(m, 0x4_0002) % 2 == 1 then 1 else 2
  }

  /** A line shows a sprite of the table that crosses it exactly when sprites are on and fewer than 32
      sprites before it in the table cross the line too. */
  lemma SpriteShown(m: Memory, y: nat, i: nat)
    requires i < |Table(m)| && Crosses(Table(m)[i], y / SpriteZoom(m))
    ensures var sy, c := y / SpriteZoom(m), CountCrossing(Table(m)[..i], y / SpriteZoom(m));
            && (At(m, 0x4_0000) / 8 % 2 == 0 ==> Shown(m, y) == [])
            && (At(m, 0x4_0000) / 8 % 2 == 1 ==> (c < |Shown(m, y)| <==> c < 32))
            && (At(m, 0x4_0000) / 8 % 2 == 1 && c < 32 ==> Shown(m, y)[c] == VideoPicture.Cut(Table(m)[i], sy))
  {
    if At(m, 0x4_0000) / 8 % 2 == 1 {
      ShownFirst(m, y, i);
    }
  }

  // ---- what is in front ----

  /** Layer k is on and has something to show at a pixel. */
  predicate LayerThere(m: Memory, k: nat, x: nat, y: nat)
    requires k < 3
  {
    At(m, 0x4_0000) / [1, 2, 4][k] % 2 == 1 && LayerAt(m, k, x, y) != 0
  }

  /** One of a line's sprites at a pixel; 0 if it shows nothing there. */
  function SpriteAt(m: Memory, list: seq<LineSprite>, c: nat, x: nat): int
    requires c < |list|
  {
    SpritePixel(m, list[c], x / SpriteZoom(m))
  }

  predicate SpriteThere(m: Memory, list: seq<LineSprite>, c: nat, x: nat, prio: nat)
    requires c < |list|
  {
    SpriteAt(m, list, c, x) != 0 && list[c].sprite.prio == prio
  }

  lemma LayerOn(m: Memory, k: nat, x: nat, y: nat)
    requires k < 3
    ensures VisibleLayer(m, k, x, y) == if LayerThere(m, k, x, y) then LayerAt(m, k, x, y) else 0
  {
    assert Pow2(0) == 1 && Pow2(1) == 2 && Pow2(2) == 4;
  }

  lemma PlanesStep(m: Memory, list: seq<LineSprite>, x: nat, y: nat, k: nat)
    requires 0 < k <= 3
    ensures First(Planes(m, list, x, y, k))
         == Over(First(Sprites(m, list, k, x / SpriteZoom(m))),
                 Over(VisibleLayer(m, k - 1, x, y), First(Planes(m, list, x, y, k - 1))))
  {
    var front := Sprites(m, list, k, x / SpriteZoom(m));
    FirstOfBoth(front + [VisibleLayer(m, k - 1, x, y)], Planes(m, list, x, y, k - 1));
    FirstOfBoth(front, [VisibleLayer(m, k - 1, x, y)]);
  }

  lemma NoSprite(m: Memory, list: seq<LineSprite>, x: nat, prio: nat)
    requires forall c :: 0 <= c < |list| ==> !SpriteThere(m, list, c, x, prio)
    ensures First(Sprites(m, list, prio, x / SpriteZoom(m))) == 0
  {
    var planes := Sprites(m, list, prio, x / SpriteZoom(m));
    forall c | 0 <= c < |planes|
      ensures planes[c] == 0
    {
      assert !SpriteThere(m, list, c, x, prio);
    }
    FirstNone(planes);
  }

  lemma FirstSprite(m: Memory, list: seq<LineSprite>, x: nat, prio: nat, c: nat)
    requires c < |list| && SpriteThere(m, list, c, x, prio)
    requires forall d :: 0 <= d < c ==> !SpriteThere(m, list, d, x, prio)
    ensures First(Sprites(m, list, prio, x / SpriteZoom(m))) == SpriteAt(m, list, c, x)
  {
    var planes := Sprites(m, list, prio, x / SpriteZoom(m));
    forall d | 0 <= d < c
      ensures planes[d] == 0
    {
      assert !SpriteThere(m, list, d, x, prio);
    }
    FirstIs(planes, c);
  }

  /** Nothing shows at a pixel of the layers from one on, nor of the sprites from a priority on. */
  predicate Clear(m: Memory, list: seq<LineSprite>, x: nat, y: nat, layer: nat, lowest: nat) {
    && (forall k :: layer <= k < 3 ==> !LayerThere(m, k, x, y))
    && (forall c, prio :: 0 <= c < |list| && lowest <= prio <= 3 ==> !SpriteThere(m, list, c, x, prio))
  }

  lemma {:induction false} ClearAbove(m: Memory, list: seq<LineSprite>, x: nat, y: nat, k: nat, top: nat)
    requires k <= top <= 3 && Clear(m, list, x, y, k, k + 1)
    ensures First(Planes(m, list, x, y, top)) == First(Planes(m, list, x, y, k))
    decreases top
  {
    if k < top {
      PlanesStep(m, list, x, y, top);
      NoSprite(m, list, x, top);
      LayerOn(m, top - 1, x, y);
      ClearAbove(m, list, x, y, k, top - 1);
    }
  }

  /** A layer is seen where it shows something, if nothing shows of a layer above it or of the sprites of
      priorities above its number. */
  lemma LayerSeen(m: Memory, x: nat, y: nat, k: nat)
    requires k < 3 && LayerThere(m, k, x, y)
    requires Clear(m, Shown(m, y), x, y, k + 1, k + 1)
    ensures IndexAt(m, x, y) == LayerAt(m, k, x, y)
  {
    ClearAbove(m, Shown(m, y), x, y, k + 1, 3);
    PlanesStep(m, Shown(m, y), x, y, k + 1);
    NoSprite(m, Shown(m, y), x, k + 1);
    LayerOn(m, k, x, y);
  }

  /** A sprite of priority 1 to 3 is seen where it shows something, if nothing shows of the layers that many
      up from the back, of sprites of higher priorities, or of lower-numbered ones of its own. */
  lemma SpriteSeen(m: Memory, x: nat, y: nat, c: nat, prio: nat)
    requires c < |Shown(m, y)| && 1 <= prio <= 3 && SpriteThere(m, Shown(m, y), c, x, prio)
    requires Clear(m, Shown(m, y), x, y, prio, prio + 1)
    requires forall d :: 0 <= d < c ==> !SpriteThere(m, Shown(m, y), d, x, prio)
    ensures IndexAt(m, x, y) == SpriteAt(m, Shown(m, y), c, x)
  {
    ClearAbove(m, Shown(m, y), x, y, prio, 3);
    PlanesStep(m, Shown(m, y), x, y, prio);
    FirstSprite(m, Shown(m, y), x, prio, c);
  }

  /** Where nothing shows, the backdrop does. */
  lemma BackdropSeen(m: Memory, x: nat, y: nat)
    requires Clear(m, Shown(m, y), x, y, 0, 1)
    ensures IndexAt(m, x, y) == At(m, 0x4_0001)
  {
    ClearAbove(m, Shown(m, y), x, y, 0, 3);
  }

  /** A line of the picture is colours of the palette, two bytes each. */
  lemma ColourIs(m: Memory, index: byte)
    ensures Colour(m, index) == Word16(m, 0x4_0200 + 2 * index)
  {
  }

  /** With one layer on and no sprites, the picture is that layer over the backdrop. */
  lemma OnlyLayer(m: Memory, x: nat, y: nat, k: nat)
    requires k < 3 && At(m, 0x4_0000) % 16 == [1, 2, 4][k]
    ensures var v := LayerAt(m, k, x, y);
            Colour(m, IndexAt(m, x, y)) == Word16(m, 0x4_0200 + 2 * if v != 0 then v else At(m, 0x4_0001))
  {
    OthersOff(m, k, x, y);
    if LayerThere(m, k, x, y) {
      LayerSeen(m, x, y, k);
    } else {
      BackdropSeen(m, x, y);
    }
    ColourIs(m, IndexAt(m, x, y));
  }

  lemma OneBit(b: byte, k: nat)
    requires k < 3 && b % 16 == [1, 2, 4][k]
    ensures b / 1 % 2 == (if k == 0 then 1 else 0) && b / 2 % 2 == (if k == 1 then 1 else 0)
    ensures b / 4 % 2 == (if k == 2 then 1 else 0) && b / 8 % 2 == 0
  {
    DivMod(b, 16);
    DivUnique(b, 8, 2 * (b / 16), b % 16);
    DivUnique(b, 4, 4 * (b / 16) + b % 16 / 4, b % 16 % 4);
    DivUnique(b, 2, 8 * (b / 16) + b % 16 / 2, b % 16 % 2);
  }

  lemma OthersOff(m: Memory, k: nat, x: nat, y: nat)
    requires k < 3 && At(m, 0x4_0000) % 16 == [1, 2, 4][k]
    ensures Shown(m, y) == [] && At(m, 0x4_0000) / [1, 2, 4][k] % 2 == 1
    ensures forall j :: 0 <= j < 3 && j != k ==> !LayerThere(m, j, x, y)
  {
    OneBit(At(m, 0x4_0000), k);
  }

  /** A text screen alone: each pixel of the picture is in the colour its cell has for a 1 or a 0 of the
      glyph, or in that of the backdrop where that is number 0. */
  lemma TextScreen(m: Memory, x: nat, y: nat, k: nat, cx: nat, cy: nat, i: nat, j: nat)
    requires k < 3 && At(m, 0x4_0000) % 16 == [1, 2, 4][k] && Kind(m, k) == 0
    requires InCell(m, k, x, y, 8, Size(m, k), cx, cy, i, j)
    ensures var v := TextByte(m, k, cx, cy, i, j);
            Colour(m, IndexAt(m, x, y)) == Word16(m, 0x4_0200 + 2 * if v != 0 then v else At(m, 0x4_0001))
  {
    TextShows(m, k, x, y, cx, cy, i, j);
    OnlyLayer(m, x, y, k);
  }
}
