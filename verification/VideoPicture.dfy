/** One line of the picture: three layers and up to 32 sprites, drawn back to front,
    against what each pixel shows, found from the front. */
module VideoPicture {
  import opened Words
  import opened VideoMemory

  const WIDTH := 640
  const PALETTE := 0x4_0200
  const MAX_LINE_SPRITES := 32

  // Display settings, from CFG_BASE; a layer's are 16 bytes from LAYERS.
  const DC_CTRL := 0
  const DC_BACK := 1
  const SPR_CTRL := 2
  const SPR_COUNT := 3
  const SPR_BASE := 4
  const LAYERS := 0x10

  function ByteAt(m: Memory, a: int): byte
    requires 0 <= a < ADDRESS_SPACE
  {
    m[a] as int
  }

  function Vram(m: Memory, a: int): byte { ByteAt(m, a % VRAM_SIZE) }

  function Cfg(m: Memory, at: nat): byte
    requires at < CFG_SIZE
  {
    ByteAt(m, CFG_BASE + at)
  }

  /** A big-endian word at an address of the card; signed, it is two's complement. */
  function Be16(m: Memory, a: nat): u16
    requires a + 1 < ADDRESS_SPACE
  {
    var hi: int, lo: int := ByteAt(m, a), ByteAt(m, a + 1);
    0x100 * hi + lo
  }

  function Signed(w: int): int { if w >= 0x8000 then w - 0x1_0000 else w }

  function S16(m: Memory, a: nat): int
    requires a + 1 < ADDRESS_SPACE
  {
    Signed(Be16(m, a))
  }

  function Be24(m: Memory, a: nat): (v: nat)
    requires a + 2 < ADDRESS_SPACE
    ensures v < ADDRESS_SPACE
  {
    var hi: int, lo: int := ByteAt(m, a), Be16(m, a + 1);
    0x1_0000 * hi + lo
  }

  function Flag(b: byte, mask: nat): bool
    requires mask > 0
  {
    b / mask % 2 == 1
  }

  // ---- layers ----

  datatype Layer = Layer(kind: nat, hires: bool, big: bool, bpp: nat, mapBase: nat, tileBase: nat,
                         hscroll: int, vscroll: int, mapW: nat, mapH: nat, stride: nat, palette: nat)

  function Bits(code: nat): (bpp: nat)
    ensures IsDepth(bpp)
  {
    if code == 0 then 1 else if code == 1 then 2 else if code == 2 then 4 else 8
  }

  function Cells(code: nat): (n: nat)
    ensures n > 0
  {
    if code == 0 then 32 else if code == 1 then 64 else if code == 2 then 128 else 256
  }

  function LayerOf(m: Memory, k: nat): (l: Layer)
    requires k < 3
    ensures IsDepth(l.bpp) && l.mapW > 0 && l.mapH > 0
  {
    var at := CFG_BASE + LAYERS + 0x10 * k;
    var mode: int, size: int := ByteAt(m, at), ByteAt(m, at + 1);
    Layer(mode % 4, mode / 4 % 2 == 1, mode / 32 % 2 == 1, Bits(mode / 8 % 4), Be24(m, at + 2), Be24(m, at + 5),
          S16(m, at + 8), S16(m, at + 10), Cells(size % 4), Cells(size / 4 % 4), Be16(m, at + 12), ByteAt(m, at + 14))
  }

  function Scale(hires: bool): (s: nat)
    ensures s > 0
  {
    if hires then 1 else 2
  }

  /** A pixel of packed pixels, as a colour of palette `pal` below 8 bits; 0 is transparent. */
  function Packed(m: Memory, base: nat, bit: nat, bpp: nat, pal: nat): byte {
    var b := m[(base + bit / 8) % VRAM_SIZE];
    if bpp == 8 then b as int
    else
      var v := Field(b, bpp, 8 - bpp - bit % 8) as int;
      if v != 0 then (pal * 16 + v) % 0x100 else 0
  }

  /** A position in a map that wraps around. */
  function Wrapped(v: int, size: nat): (p: nat)
    requires size > 0
    ensures p < size
  {
    v % size
  }

  function Times(a: nat, b: nat): nat {
    MulMono(0, a, b);
    a * b
  }

  /** Where a cell is in a map, counted in cells. */
  function CellIndex(l: Layer, px: nat, py: nat, w: nat, h: nat): nat
    requires w > 0 && h > 0
  {
    Times(Div(py, h), l.mapW) + Div(px, w)
  }

  function TextPixel(m: Memory, l: Layer, lx: nat, ly: nat): byte
    requires l.mapW > 0 && l.mapH > 0
  {
    var fh := if l.big then 16 else 8;
    var px, py := Wrapped(lx + l.hscroll, 8 * l.mapW), Wrapped(ly + l.vscroll, fh * l.mapH);
    var cell := l.mapBase + 4 * CellIndex(l, px, py, 8, fh);
    var ch: int := Vram(m, cell);
    var glyph := Vram(m, l.tileBase + ch * fh + py % fh);
    Vram(m, cell + if Flag(glyph, Pow2(7 - px % 8)) then 1 else 2)
  }

  /** A position within a tile, mirrored or not. */
  function InTile(p: nat, ts: nat, mirrored: bool): nat
    requires ts > 0
  {
    if mirrored then ts - 1 - p % ts else p % ts
  }

  function TilePixel(m: Memory, l: Layer, lx: nat, ly: nat): byte
    requires l.mapW > 0 && l.mapH > 0
  {
    var ts := if l.big then 16 else 8;
    var px, py := Wrapped(lx + l.hscroll, ts * l.mapW), Wrapped(ly + l.vscroll, ts * l.mapH);
    var e: int := Be16(m, Wrapped(l.mapBase + 2 * CellIndex(l, px, py, ts, ts), VRAM_SIZE));
    var tx, ty := InTile(px, ts, e / 0x400 % 2 == 1), InTile(py, ts, e / 0x800 % 2 == 1);
    Packed(m, l.tileBase + Times(e % 0x400, ts * ts * l.bpp / 8), Times(ty * ts + tx, l.bpp), l.bpp, e / 0x1000)
  }

  function BitmapPixel(m: Memory, l: Layer, lx: nat, ly: nat): byte
    requires IsDepth(l.bpp)
  {
    var px, py := lx + l.hscroll, ly + l.vscroll;
    if 0 <= px < l.stride * 8 / l.bpp && py >= 0 then
      Packed(m, l.mapBase + Times(py, l.stride), Times(px, l.bpp), l.bpp, l.palette)
    else 0
  }

  /** The palette index of a layer's own pixel; 0 is transparent. */
  function LayerPixel(m: Memory, l: Layer, lx: nat, ly: nat): byte
    requires IsDepth(l.bpp) && l.mapW > 0 && l.mapH > 0
  {
    if l.kind == 0 then TextPixel(m, l, lx, ly)
    else if l.kind == 1 then TilePixel(m, l, lx, ly)
    else if l.kind == 2 then BitmapPixel(m, l, lx, ly)
    else 0
  }

  /** A layer at a pixel of the picture. */
  function LayerAt(m: Memory, k: nat, x: nat, y: nat): byte
    requires k < 3
  {
    var l := LayerOf(m, k);
    var s := Scale(l.hires);
    LayerPixel(m, l, Div(x, s), Div(y, s))
  }

  // ---- sprites ----

  datatype Sprite = Sprite(prio: nat, x: int, top: int, w: nat, h: nat, bpp: nat, image: nat, hflip: bool, vflip: bool,
                           palette: nat)

  function Side(code: nat): (n: nat)
    ensures n > 0
  {
    if code == 0 then 8 else if code == 1 then 16 else if code == 2 then 32 else 64
  }

  /** The attributes at an address: 8 bytes. */
  function SpriteOf(m: Memory, a: nat): (s: Sprite)
    requires a < VRAM_SIZE
    ensures IsDepth(s.bpp) && s.w > 0
  {
    var shape: int, look: int, image: int := ByteAt(m, a + 6), ByteAt(m, a + 7), Be16(m, a);
    Sprite(shape / 64, S16(m, a + 2), S16(m, a + 4), Side(shape % 4), Side(shape / 4 % 4),
           if look / 128 % 2 == 1 then 8 else 4, image * 32, shape / 16 % 2 == 1, shape / 32 % 2 == 1, look % 16)
  }

  function SpritesHires(m: Memory): bool { Cfg(m, SPR_CTRL) % 2 == 1 }

  function SpriteCount(m: Memory): nat { if Cfg(m, SPR_COUNT) > 128 then 128 else Cfg(m, SPR_COUNT) }

  function AttrOf(m: Memory, i: nat): (a: nat)
    ensures a < VRAM_SIZE
  {
    (Be24(m, CFG_BASE + SPR_BASE) + 8 * i) % VRAM_SIZE
  }

  /** The table ends at its count, or where an entry would not fit in the video memory. */
  predicate TableEnds(m: Memory, i: nat) { i >= SpriteCount(m) || AttrOf(m, i) > VRAM_SIZE - 8 }

  function TableSize(m: Memory, from: nat): (n: nat)
    requires forall i :: 0 <= i < from ==> !TableEnds(m, i)
    ensures TableEnds(m, n) && forall i :: 0 <= i < n ==> !TableEnds(m, i)
    decreases SpriteCount(m) - from
  {
    if TableEnds(m, from) then from else TableSize(m, from + 1)
  }

  /** The sprite table. */
  function Table(m: Memory): (t: seq<Sprite>)
    ensures |t| == TableSize(m, 0)
  {
    seq(TableSize(m, 0), i requires 0 <= i => SpriteOf(m, AttrOf(m, i)))
  }

  /** A sprite on a line, and which of its rows the line shows. */
  datatype LineSprite = LineSprite(sprite: Sprite, row: nat)

  predicate Crosses(s: Sprite, sy: nat) { s.prio != 0 && s.top <= sy < s.top + s.h }

  function Cut(s: Sprite, sy: nat): LineSprite
    requires Crosses(s, sy)
  {
    LineSprite(s, if s.vflip then s.h - 1 - (sy - s.top) else sy - s.top)
  }

  /** The sprites that cross a line, in the table's order. */
  function Crossing(table: seq<Sprite>, sy: nat): (list: seq<LineSprite>)
    ensures |list| <= |table|
  {
    if table == [] then []
    else
      var rest := Crossing(table[..|table| - 1], sy);
      var last := table[|table| - 1];
      if Crosses(last, sy) then rest + [Cut(last, sy)] else rest
  }

  function FirstFew(list: seq<LineSprite>): seq<LineSprite> {
    if |list| > MAX_LINE_SPRITES then list[..MAX_LINE_SPRITES] else list
  }

  /** The sprites a line shows: none when they are off, else the first 32 that cross it. */
  function Shown(m: Memory, y: nat): (list: seq<LineSprite>) {
    if Flag(Cfg(m, DC_CTRL), 8) then FirstFew(Crossing(Table(m), Div(y, Scale(SpritesHires(m))))) else []
  }

  /** A sprite at column sx of its own coordinates; 0 is transparent or outside. */
  function SpritePixel(m: Memory, s: LineSprite, sx: int): byte {
    var a := s.sprite;
    if a.x <= sx < a.x + a.w then
      var col := if a.hflip then a.w - 1 - (sx - a.x) else sx - a.x;
      Packed(m, a.image, Times(Times(s.row, a.w) + col, a.bpp), a.bpp, a.palette)
    else 0
  }

  function SpriteIf(m: Memory, s: LineSprite, prio: nat, sx: int): byte {
    if s.sprite.prio == prio then SpritePixel(m, s, sx) else 0
  }

  /** A priority's sprites at a column, lowest-numbered first. */
  function Sprites(m: Memory, list: seq<LineSprite>, prio: nat, sx: int): (planes: seq<byte>)
    ensures |planes| == |list|
  {
    seq(|list|, k requires 0 <= k < |list| => SpriteIf(m, list[k], prio, sx))
  }

  // ---- a pixel of the picture ----

  function VisibleLayer(m: Memory, k: nat, x: nat, y: nat): byte
    requires k < 3
  {
    if Flag(Cfg(m, DC_CTRL), Pow2(k)) then LayerAt(m, k, x, y) else 0
  }

  /** Everything there is at a pixel, from the front: each priority's sprites lie over the layer below it. */
  function Planes(m: Memory, list: seq<LineSprite>, x: nat, y: nat, k: nat): seq<byte>
    requires k <= 3
  {
    if k == 0 then []
    else Sprites(m, list, k, Div(x, Scale(SpritesHires(m)))) + [VisibleLayer(m, k - 1, x, y)]
         + Planes(m, list, x, y, k - 1)
  }

  /** The first that is not transparent. */
  function First(planes: seq<byte>): byte {
    if planes == [] then 0 else if planes[0] != 0 then planes[0] else First(planes[1..])
  }

  /** The colour number a pixel of the picture shows: the first that is not transparent, searching
      from the front, or the backdrop. */
  function IndexAt(m: Memory, x: nat, y: nat): byte { Over(First(Planes(m, Shown(m, y), x, y, 3)), Cfg(m, DC_BACK)) }

  function Colour(m: Memory, index: byte): u16 { Be16(m, PALETTE + 2 * index) }

  function Over(front: byte, back: byte): byte { if front != 0 then front else back }

  /** The search finds the one pixel that is not transparent with only transparent ones in front of it. */
  lemma {:induction false} FirstIs(planes: seq<byte>, k: nat)
    requires k < |planes| && planes[k] != 0 && forall j :: 0 <= j < k ==> planes[j] == 0
    ensures First(planes) == planes[k]
  {
    if k > 0 {
      FirstIs(planes[1..], k - 1);
    }
  }

  /** It finds nothing exactly when every pixel is transparent. */
  lemma {:induction false} FirstNone(planes: seq<byte>)
    ensures First(planes) == 0 <==> forall j :: 0 <= j < |planes| ==> planes[j] == 0
  {
    if planes != [] {
      FirstNone(planes[1..]);
      assert forall j :: 1 <= j < |planes| ==> planes[j] == planes[1..][j - 1];
      if forall j :: 0 <= j < |planes| ==> planes[j] == 0 {
        assert forall j :: 0 <= j < |planes[1..]| ==> planes[1..][j] == planes[j + 1];
      }
    }
  }

  lemma {:induction false} FirstOfBoth(front: seq<byte>, back: seq<byte>)
    ensures First(front + back) == Over(First(front), First(back))
  {
    if front == [] {
      assert front + back == back;
    } else {
      assert (front + back)[1..] == front[1..] + back;
      FirstOfBoth(front[1..], back);
    }
  }

  // ---- drawing it, back to front ----

  type Row = r: seq<byte> | |r| == WIDTH witness seq(WIDTH, _ => 0)

  ghost function OverRow(front: Row, back: Row): (r: Row) {
    seq(WIDTH, x requires 0 <= x < WIDTH => Over(front[x], back[x]))
  }

  ghost function LayerRow(m: Memory, k: nat, y: nat): (r: Row)
    requires k < 3
  {
    seq(WIDTH, x requires 0 <= x < WIDTH => LayerAt(m, k, x, y))
  }

  /** One pixel of a layer, which is one or two of the picture. */
  method Sample(m: Memory, k: nat, l: Layer, lx: nat, y: nat) returns (v: byte)
    requires k < 3 && l == LayerOf(m, k)
    ensures forall x :: 0 <= x < WIDTH && Div(x, Scale(l.hires)) == lx ==> LayerRow(m, k, y)[x] == v
  {
    v := LayerPixel(m, l, lx, y / Scale(l.hires));
  }

  /** A pixel of a layer or a sprite on the line, unless it is transparent. */
  method Put(idx: array<byte>, scale: nat, at: nat, v: byte)
    requires idx.Length == WIDTH && 1 <= scale <= 2 && scale * at + scale <= WIDTH
    modifies idx
    ensures forall x :: 0 <= x < WIDTH ==>
              idx[x] == if Div(x, scale) == at then Over(v, old(idx[x])) else old(idx[x])
  {
    if v != 0 {
      if scale == 1 {
        idx[at] := v;
      } else {
        idx[2 * at] := v;
        idx[2 * at + 1] := v;
      }
    }
  }

  /** A layer over what is already on the line. */
  method RenderLayer(m: Memory, k: nat, y: nat, idx: array<byte>)
    requires k < 3 && idx.Length == WIDTH
    modifies idx
    ensures idx[..] == OverRow(LayerRow(m, k, y), old(idx[..]))
  {
    var l := LayerOf(m, k);
    var scale := Scale(l.hires);
    var width := WIDTH / scale;
    ghost var row, was := LayerRow(m, k, y), idx[..];
    var lx := 0;
    while lx < width
      invariant 0 <= lx <= width
      invariant forall x :: 0 <= x < WIDTH ==> idx[x] == if Div(x, scale) < lx then Over(row[x], was[x]) else was[x]
    {
      var v := Sample(m, k, l, lx, y);
      Put(idx, scale, lx, v);
      lx := lx + 1;
    }
  }

  ghost function SpriteRow(m: Memory, s: LineSprite, scale: nat): (r: Row)
    requires scale > 0
  {
    seq(WIDTH, x requires 0 <= x < WIDTH => SpritePixel(m, s, Div(x, scale)))
  }

  /** Pixel i of a sprite's row. */
  method SampleSprite(m: Memory, s: LineSprite, i: nat, ghost scale: nat) returns (v: byte)
    requires i < s.sprite.w && scale > 0
    ensures forall x :: 0 <= x < WIDTH && Div(x, scale) == s.sprite.x + i ==> SpriteRow(m, s, scale)[x] == v
  {
    var a := s.sprite;
    var col := if a.hflip then a.w - 1 - i else i;
    v := Packed(m, a.image, Times(Times(s.row, a.w) + col, a.bpp), a.bpp, a.palette);
    assert v == SpritePixel(m, s, a.x + i);
  }

  /** The line once the sprite's columns before `right` are drawn on it. */
  ghost predicate DrawnTo(idx: Row, row: Row, was: Row, scale: nat, left: int, right: int)
    requires scale > 0
  {
    forall x :: 0 <= x < WIDTH ==> idx[x] == if left <= Div(x, scale) < right then Over(row[x], was[x]) else was[x]
  }

  lemma DrawnFurther(idx: Row, now: Row, row: Row, was: Row, scale: nat, left: int, right: int, v: byte)
    requires 1 <= scale <= 2 && left <= right
    requires DrawnTo(idx, row, was, scale, left, right)
    requires forall x :: 0 <= x < WIDTH ==> now[x] == if Div(x, scale) == right then Over(v, idx[x]) else idx[x]
    requires forall x :: 0 <= x < WIDTH && Div(x, scale) == right ==> row[x] == v
    ensures DrawnTo(now, row, was, scale, left, right + 1)
  {
  }

  lemma DrawnOff(idx: Row, row: Row, was: Row, scale: nat, left: int, right: int)
    requires 1 <= scale <= 2 && DrawnTo(idx, row, was, scale, left, right)
    requires right < 0 || right >= WIDTH / scale
    ensures DrawnTo(idx, row, was, scale, left, right + 1)
  {
  }

  lemma DrawnAll(m: Memory, s: LineSprite, idx: Row, was: Row, scale: nat)
    requires 1 <= scale <= 2
    requires DrawnTo(idx, SpriteRow(m, s, scale), was, scale, s.sprite.x, s.sprite.x + s.sprite.w)
    ensures idx == OverRow(SpriteRow(m, s, scale), was)
  {
  }

  /** Column i of a sprite, if it is on the screen. */
  method DrawColumn(m: Memory, s: LineSprite, i: nat, scale: nat, idx: array<byte>, ghost was: Row)
    requires i < s.sprite.w && idx.Length == WIDTH && 1 <= scale <= 2
    requires DrawnTo(idx[..], SpriteRow(m, s, scale), was, scale, s.sprite.x, s.sprite.x + i)
    modifies idx
    ensures DrawnTo(idx[..], SpriteRow(m, s, scale), was, scale, s.sprite.x, s.sprite.x + i + 1)
  {
    ghost var before := idx[..];
    var sx := s.sprite.x + i;
    if sx < 0 || sx >= WIDTH / scale {
      DrawnOff(before, SpriteRow(m, s, scale), was, scale, s.sprite.x, sx);
      return;
    }
    var v := SampleSprite(m, s, i, scale);
    Put(idx, scale, sx, v);
    DrawnFurther(before, idx[..], SpriteRow(m, s, scale), was, scale, s.sprite.x, sx, v);
  }

  /** A sprite over what is already on the line. */
  method RenderSprite(m: Memory, s: LineSprite, scale: nat, idx: array<byte>)
    requires idx.Length == WIDTH && 1 <= scale <= 2
    modifies idx
    ensures idx[..] == OverRow(SpriteRow(m, s, scale), old(idx[..]))
  {
    ghost var was := idx[..];
    var i := 0;
    while i < s.sprite.w
      invariant 0 <= i <= s.sprite.w
      invariant DrawnTo(idx[..], SpriteRow(m, s, scale), was, scale, s.sprite.x, s.sprite.x + i)
    {
      DrawColumn(m, s, i, scale, idx, was);
      i := i + 1;
    }
    DrawnAll(m, s, idx[..], was, scale);
  }

  /** At each pixel, the frontmost of a priority's sprites from entry k of the list on. */
  ghost function FrontRow(m: Memory, list: seq<LineSprite>, prio: nat, scale: nat, k: nat): (r: Row)
    requires k <= |list| && scale > 0
  {
    seq(WIDTH, x requires 0 <= x < WIDTH => First(Sprites(m, list, prio, Div(x, scale))[k..]))
  }

  /** The sprites of a priority, last to first: the lowest-numbered ends up in front. */
  method RenderSprites(m: Memory, list: seq<LineSprite>, prio: nat, idx: array<byte>)
    requires idx.Length == WIDTH
    modifies idx
    ensures idx[..] == OverRow(FrontRow(m, list, prio, Scale(SpritesHires(m)), 0), old(idx[..]))
  {
    var scale := Scale(SpritesHires(m));
    ghost var was := idx[..];
    NoSprites(m, list, prio, scale, was);
    var k := |list|;
    while k > 0
      invariant 0 <= k <= |list|
      invariant idx[..] == OverRow(FrontRow(m, list, prio, scale, k), was)
    {
      k := k - 1;
      OneMoreSprite(m, list, prio, scale, k, was);
      if list[k].sprite.prio == prio {
        RenderSprite(m, list[k], scale, idx);
      }
    }
  }

  lemma NoSprites(m: Memory, list: seq<LineSprite>, prio: nat, scale: nat, was: Row)
    requires scale > 0
    ensures OverRow(FrontRow(m, list, prio, scale, |list|), was) == was
  {
  }

  lemma OneMoreSprite(m: Memory, list: seq<LineSprite>, prio: nat, scale: nat, k: nat, was: Row)
    requires k < |list| && scale > 0
    ensures var rest := OverRow(FrontRow(m, list, prio, scale, k + 1), was);
            OverRow(FrontRow(m, list, prio, scale, k), was)
              == if list[k].sprite.prio == prio then OverRow(SpriteRow(m, list[k], scale), rest) else rest
  {
    forall x | 0 <= x < WIDTH
      ensures First(Sprites(m, list, prio, Div(x, scale))[k..])
           == Over(SpriteIf(m, list[k], prio, Div(x, scale)), First(Sprites(m, list, prio, Div(x, scale))[k + 1..]))
    {
      var planes := Sprites(m, list, prio, Div(x, scale));
      assert planes[k..][1..] == planes[k + 1..];
    }
  }

  /** An entry of the table, and whether it crosses the line. */
  lemma TableStep(m: Memory, sy: nat, i: nat)
    requires i < TableSize(m, 0)
    ensures var s := SpriteOf(m, AttrOf(m, i));
            Crossing(Table(m)[..i + 1], sy)
              == Crossing(Table(m)[..i], sy) + if Crosses(s, sy) then [Cut(s, sy)] else []
  {
    var t := Table(m);
    assert t[..i + 1][..i] == t[..i];
  }

  lemma {:induction false} CrossingPrefix(table: seq<Sprite>, sy: nat, n: nat)
    requires n <= |table|
    ensures Crossing(table[..n], sy) <= Crossing(table, sy)
    decreases |table|
  {
    if n == |table| {
      assert table[..n] == table;
    } else {
      assert table[..|table| - 1][..n] == table[..n];
      CrossingPrefix(table[..|table| - 1], sy, n);
    }
  }

  /** One entry of the table: `more` unless it would not fit in the video memory, and it is
      added to the list if it crosses the line. */
  method Examine(m: Memory, sy: nat, i: nat, list: seq<LineSprite>) returns (more: bool, now: seq<LineSprite>)
    requires i <= |Table(m)| && i < SpriteCount(m)
    requires list == Crossing(Table(m)[..i], sy)
    ensures more <==> i < |Table(m)|
    ensures more ==> now == Crossing(Table(m)[..i + 1], sy) && |now| <= |list| + 1
  {
    now := list;
    more := !TableEnds(m, i);
    EndOfTable(m, i);
    if more {
      now := ListEntry(m, sy, i, list);
    }
  }

  lemma EndOfTable(m: Memory, i: nat)
    requires i <= |Table(m)|
    ensures i < |Table(m)| <==> !TableEnds(m, i)
  {
  }

  lemma TableWithinCount(m: Memory)
    ensures |Table(m)| <= SpriteCount(m)
  {
    if |Table(m)| > 0 {
      EndOfTable(m, |Table(m)| - 1);
    }
  }

  method ListEntry(m: Memory, sy: nat, i: nat, list: seq<LineSprite>) returns (now: seq<LineSprite>)
    requires i < |Table(m)| && list == Crossing(Table(m)[..i], sy)
    ensures now == Crossing(Table(m)[..i + 1], sy) && |now| <= |list| + 1
  {
    TableStep(m, sy, i);
    var s := SpriteOf(m, AttrOf(m, i));
    now := if Crosses(s, sy) then list + [Cut(s, sy)] else list;
  }

  /** The sprites crossing a line, by one pass over the table. */
  method FindCrossing(m: Memory, sy: nat) returns (list: seq<LineSprite>)
    ensures list == FirstFew(Crossing(Table(m), sy))
  {
    list := [];
    TableWithinCount(m);
    var i := 0;
    while i < SpriteCount(m) && |list| < MAX_LINE_SPRITES
      invariant 0 <= i <= |Table(m)| && |list| <= MAX_LINE_SPRITES
      invariant list == Crossing(Table(m)[..i], sy)
    {
      var more, now := Examine(m, sy, i, list);
      if !more {
        break;
      }
      list := now;
      i := i + 1;
    }
    CrossingPrefix(Table(m), sy, i);
    assert i == |Table(m)| ==> Table(m)[..i] == Table(m);
  }

  /** The sprites on a line, if sprites are on. */
  method FindSprites(m: Memory, y: nat) returns (list: seq<LineSprite>)
    ensures list == Shown(m, y)
  {
    if Flag(Cfg(m, DC_CTRL), 8) {
      list := FindCrossing(m, Div(y, Scale(SpritesHires(m))));
    } else {
      list := [];
    }
  }

  // ---- the whole line ----

  /** What the program has drawn after the first k layers, each with its sprites over it. */
  ghost function Stacked(m: Memory, list: seq<LineSprite>, y: nat, k: nat): (r: Row)
    requires k <= 3
  {
    seq(WIDTH, x requires 0 <= x < WIDTH => First(Planes(m, list, x, y, k)))
  }

  lemma StackedStep(m: Memory, list: seq<LineSprite>, y: nat, k: nat)
    requires k < 3
    ensures var below := Stacked(m, list, y, k);
            var withLayer := if Flag(Cfg(m, DC_CTRL), Pow2(k)) then OverRow(LayerRow(m, k, y), below) else below;
            Stacked(m, list, y, k + 1) == OverRow(FrontRow(m, list, k + 1, Scale(SpritesHires(m)), 0), withLayer)
  {
    forall x | 0 <= x < WIDTH
      ensures First(Planes(m, list, x, y, k + 1))
           == Over(First(Sprites(m, list, k + 1, Div(x, Scale(SpritesHires(m))))[0..]),
                   Over(VisibleLayer(m, k, x, y), First(Planes(m, list, x, y, k))))
    {
      var front := Sprites(m, list, k + 1, Div(x, Scale(SpritesHires(m))));
      assert front[0..] == front;
      FirstOfBoth(front + [VisibleLayer(m, k, x, y)], Planes(m, list, x, y, k));
      FirstOfBoth(front, [VisibleLayer(m, k, x, y)]);
    }
  }

  /** The layers from the back, each with the sprites of its priority over it. */
  method Compose(m: Memory, list: seq<LineSprite>, y: nat) returns (idx: array<byte>)
    ensures fresh(idx) && idx.Length == WIDTH && idx[..] == Stacked(m, list, y, 3)
  {
    idx := new byte[WIDTH](_ => 0);
    var layer := 0;
    while layer < 3
      invariant 0 <= layer <= 3
      invariant idx[..] == Stacked(m, list, y, layer)
    {
      StackedStep(m, list, y, layer);
      if Flag(Cfg(m, DC_CTRL), Pow2(layer)) {
        RenderLayer(m, layer, y, idx);
      }
      if |list| > 0 {
        RenderSprites(m, list, layer + 1, idx);
      } else {
        NoSprites(m, list, layer + 1, Scale(SpritesHires(m)), idx[..]);
      }
      layer := layer + 1;
    }
  }

  /** The indices of a line turned into the colours of the palette. */
  method Paint(m: Memory, idx: array<byte>, out: array<u16>)
    requires idx.Length == out.Length == WIDTH
    modifies out
    ensures forall x :: 0 <= x < WIDTH ==> out[x] == Colour(m, Over(idx[x], Cfg(m, DC_BACK)))
  {
    var x := 0;
    while x < WIDTH
      invariant 0 <= x <= WIDTH
      invariant forall k :: 0 <= k < x ==> out[k] == Colour(m, Over(idx[k], Cfg(m, DC_BACK)))
    {
      out[x] := Colour(m, Over(idx[x], Cfg(m, DC_BACK)));
      x := x + 1;
    }
  }

  /** A line of the picture, into `out`: each pixel in the colour of what is frontmost there, or
      of the backdrop where everything is transparent. */
  method RenderLine(m: Memory, y: nat, out: array<u16>)
    requires out.Length == WIDTH
    modifies out
    ensures forall x :: 0 <= x < WIDTH ==> out[x] == Colour(m, IndexAt(m, x, y))
  {
    var list := FindSprites(m, y);
    var idx := Compose(m, list, y);
    Paint(m, idx, out);
    forall x | 0 <= x < WIDTH
      ensures out[x] == Colour(m, IndexAt(m, x, y))
    {
      assert idx[..][x] == Stacked(m, list, y, 3)[x];
    }
  }

  // ---- which sprites are shown ----

  /** How many of some sprites cross a line. */
  function CountCrossing(table: seq<Sprite>, sy: nat): nat {
    if table == [] then 0
    else CountCrossing(table[..|table| - 1], sy) + if Crosses(table[|table| - 1], sy) then 1 else 0
  }

  lemma {:induction false} CountIsLength(table: seq<Sprite>, sy: nat)
    ensures |Crossing(table, sy)| == CountCrossing(table, sy)
  {
    if table != [] {
      CountIsLength(table[..|table| - 1], sy);
    }
  }

  /** A crossing sprite's place in the list is where the ones before it leave it. */
  lemma CrossingPlace(table: seq<Sprite>, sy: nat, i: nat)
    requires i < |table| && Crosses(table[i], sy)
    ensures var c := CountCrossing(table[..i], sy);
            c < |Crossing(table, sy)| && Crossing(table, sy)[c] == Cut(table[i], sy)
  {
    CountIsLength(table[..i], sy);
    CrossingPrefix(table, sy, i + 1);
    assert table[..i + 1][..i] == table[..i];
  }

  /** A line shows a crossing sprite exactly when fewer than 32 lower-numbered ones cross it too, and
      then in the place those leave it. */
  lemma ShownFirst(m: Memory, y: nat, i: nat)
    requires Flag(Cfg(m, DC_CTRL), 8)
    requires i < |Table(m)| && Crosses(Table(m)[i], Div(y, Scale(SpritesHires(m))))
    ensures var sy := Div(y, Scale(SpritesHires(m)));
            var c := CountCrossing(Table(m)[..i], sy);
            && (c < |Shown(m, y)| <==> c < MAX_LINE_SPRITES)
            && (c < MAX_LINE_SPRITES ==> Shown(m, y)[c] == Cut(Table(m)[i], sy))
  {
    CrossingPlace(Table(m), Div(y, Scale(SpritesHires(m))), i);
  }
}
