/** The writer of FAT16 volumes: lays out a geometry, plans the directory tree, allocates
    clusters and fills in an image, which then holds every file (`FatFormat.Holds`). */
module FatWriter {
  import opened Words
  import opened FatGeometry
  import opened FatNames
  import opened FatTree
  import opened FatFormat

  const MEDIA: byte := 0xF8

  /** A directory while it is being made: its entries so far, its first cluster (0: the root),
      and the directories in it. */
  datatype Dir = Dir(entries: Bytes, cluster: u16, subdirs: seq<Sub>)

  datatype BuildResult = Built | BadClusterCount(clusters: nat) | RootTooSmall(entries: nat) | DoesNotFit

  // ---- bytes in buffers ----

  method PutLe16(buf: array<byte>, off: nat, v: u16)
    requires off + 2 <= buf.Length
    modifies buf
    ensures buf[off] == v % 0x100 && buf[off + 1] == v / 0x100
    ensures forall k :: 0 <= k < buf.Length && k != off && k != off + 1 ==> buf[k] == old(buf[k])
  {
    buf[off] := v % 0x100;
    buf[off + 1] := v / 0x100;
  }

  method PutLe32(buf: array<byte>, off: nat, v: u32)
    requires off + 4 <= buf.Length
    modifies buf
    ensures At(buf[..], off, Le32Bytes(v))
    ensures forall k :: 0 <= k < buf.Length && !(off <= k < off + 4) ==> buf[k] == old(buf[k])
  {
    buf[off] := v % 0x100;
    buf[off + 1] := v / 0x100 % 0x100;
    buf[off + 2] := v / 0x1_0000 % 0x100;
    buf[off + 3] := v / 0x100_0000;
  }

  /** Copies `data` into the buffer from `off` on. */
  method CopyInto(buf: array<byte>, off: nat, data: Bytes)
    requires off + |data| <= buf.Length
    modifies buf
    ensures At(buf[..], off, data)
    ensures forall k :: 0 <= k < buf.Length && !(off <= k < off + |data|) ==> buf[k] == old(buf[k])
  {
    for i := 0 to |data|
      invariant forall k :: 0 <= k < i ==> buf[off + k] == data[k]
      invariant forall k :: 0 <= k < buf.Length && !(off <= k < off + i) ==> buf[k] == old(buf[k])
    {
      buf[off + i] := data[i];
    }
  }

  // ---- directory entries ----

  /** Puts a short name at `off`: spaces first, then the base and the extension over them. */
  method PutShortName(buf: Bytes, off: nat, name: Name) returns (r: Bytes)
    requires off + 11 <= |buf|
    ensures r == Splice(buf, off, ShortName(name))
  {
    r := buf;
    for i := 0 to 11
      invariant |r| == |buf|
      invariant forall k :: 0 <= k < |r| ==> r[k] == if off <= k < off + i then SPACE else buf[k]
    {
      r := r[off + i := SPACE];
    }
    var dot := IndexOf(name, DOT);
    var base := name[..dot];
    var ext := if dot == |name| then [] else name[dot + 1..];
    var i := 0;
    while i < |base| && i < 8
      invariant 0 <= i <= 8 && i <= |base| && |r| == |buf|
      invariant forall k :: 0 <= k < |r| ==> r[k] == if off <= k < off + i then ToUpper(base[k - off])
                                                     else if off <= k < off + 11 then SPACE else buf[k]
    {
      r := r[off + i := ToUpper(base[i])];
      i := i + 1;
    }
    ghost var afterBase := r;
    i := 0;
    while i < |ext| && i < 3
      invariant 0 <= i <= 3 && i <= |ext| && |r| == |buf|
      invariant forall k :: 0 <= k < |r| ==> r[k] == if off + 8 <= k < off + 8 + i then ToUpper(ext[k - off - 8])
                                                     else afterBase[k]
    {
      r := r[off + 8 + i := ToUpper(ext[i])];
      i := i + 1;
    }
    assert forall k :: 0 <= k < 11 ==> r[off + k] == ShortName(name)[k];
    assert r == Splice(buf, off, ShortName(name));
  }

  /** The name field at `off` for "." and "..": spaces, then the dots. */
  method PutDots(buf: Bytes, off: nat, name: Name) returns (r: Bytes)
    requires name == [DOT] || name == [DOT, DOT]
    requires off + 11 <= |buf|
    ensures r == Splice(buf, off, DotName(|name|))
  {
    r := buf;
    for i := 0 to 11
      invariant |r| == |buf|
      invariant forall k :: 0 <= k < |r| ==> r[k] == if off <= k < off + i then SPACE else buf[k]
    {
      r := r[off + i := SPACE];
    }
    r := r[off := DOT];
    if name == [DOT, DOT] { r := r[off + 1 := DOT]; }
    assert forall k :: 0 <= k < 11 ==> r[off + k] == DotName(|name|)[k];
    assert r == Splice(buf, off, DotName(|name|));
  }

  /** Adds an entry to a directory's entries. */
  method AddEntry(entries: Bytes, name: Name, attr: byte, cluster: u16, size: u32) returns (r: Bytes)
    ensures r == entries + SlotBytes(Slot(NameField(name), attr, cluster, size))
  {
    var off := |entries|;
    r := entries + Zeros(32);
    r := PutShortName(r, off, name);
    if name == [DOT] || name == [DOT, DOT] {
      r := PutDots(r, off, name);
    }
    assert r == entries + NameField(name) + Zeros(21);
    r := FillEntry(entries, NameField(name), r, attr, cluster, size);
  }

  /** The attribute, cluster and size of an entry whose name is in place. */
  method FillEntry(ghost before: Bytes, ghost field: Bytes, named: Bytes, attr: byte, cluster: u16, size: u32)
    returns (r: Bytes)
    requires |field| == 11 && named == before + field + Zeros(21)
    ensures r == before + SlotBytes(Slot(field, attr, cluster, size))
  {
    var off := |named| - 32;
    r := named[off + 11 := attr];
    var c, s := Le16Bytes(cluster), Le32Bytes(size);
    r := r[off + 26 := c[0]][off + 27 := c[1]];
    r := r[off + 28 := s[0]][off + 29 := s[1]][off + 30 := s[2]][off + 31 := s[3]];
    assert r == before + (field + [attr] + Zeros(14) + c + s);
  }

  // ---- the boot sector and the FAT ----

  predicate FieldsFit(g: Geometry) {
    && 0 < g.sectorsPerCluster <= 0xFF && g.numFats <= 0xFF && g.rootEntries <= 0xFFFF
    && g.reserved <= 0xFFFF && g.sectorsPerFat <= 0xFFFF && g.totalSectors < WORD_32
  }

  method WriteBootSector(image: array<byte>, g: Geometry)
    requires FieldsFit(g) && image.Length >= SECTOR_SIZE
    modifies image
    ensures BootSectorOk(image[..], g)
    ensures image[0x15] == MEDIA
    ensures forall k :: SECTOR_SIZE <= k < image.Length ==> image[k] == old(image[k])
  {
    WriteBootHead(image, g);
    WriteBootMiddle(image, g);
    WriteBootTail(image);
    TotalReadBack(image[..], if g.totalSectors > 0xFFFF then g.totalSectors else 0);
  }

  lemma TotalReadBack(img: Bytes, total: u32)
    requires At(img, 0x20, Le32Bytes(total))
    ensures Le32(img, 0x20) == total
  {
    Le32BytesReadBack(img, 0x20, total);
  }

  /** Jump, manufacturer, and the fields up to the number of root entries. */
  method WriteBootHead(image: array<byte>, g: Geometry)
    requires FieldsFit(g) && image.Length >= SECTOR_SIZE
    modifies image
    ensures Le16(image[..], 0x0B) == SECTOR_SIZE && image[0x0D] == g.sectorsPerCluster
    ensures Le16(image[..], 0x0E) == g.reserved && image[0x10] == g.numFats
    ensures Le16(image[..], 0x11) == g.rootEntries
    ensures forall k :: 0x13 <= k < image.Length ==> image[k] == old(image[k])
  {
    image[0], image[1], image[2] := 0xEB, 0x3C, 0x90;
    CopyInto(image, 3, [0x50, 0x55, 0x47, 0x50, 0x55, 0x54, 0x52, 0x20]);
    PutLe16(image, 0x0B, SECTOR_SIZE);
    image[0x0D] := g.sectorsPerCluster;
    PutLe16(image, 0x0E, g.reserved);
    image[0x10] := g.numFats;
    PutLe16(image, 0x11, g.rootEntries);
  }

  /** Total sectors, media, FAT size, and the fields that are only for show. */
  method WriteBootMiddle(image: array<byte>, g: Geometry)
    requires FieldsFit(g) && image.Length >= SECTOR_SIZE
    modifies image
    ensures Le16(image[..], 0x13) == if g.totalSectors <= 0xFFFF then g.totalSectors else 0
    ensures image[0x15] == MEDIA
    ensures Le16(image[..], 0x16) == g.sectorsPerFat
    ensures At(image[..], 0x20, Le32Bytes(if g.totalSectors > 0xFFFF then g.totalSectors else 0))
    ensures forall k :: 0 <= k < image.Length && !(0x13 <= k < 0x24) ==> image[k] == old(image[k])
  {
    PutLe16(image, 0x13, if g.totalSectors <= 0xFFFF then g.totalSectors else 0);
    image[0x15] := MEDIA;
    PutLe16(image, 0x16, g.sectorsPerFat);
    PutLe16(image, 0x18, 0);
    PutLe16(image, 0x1A, 0);
    PutLe32(image, 0x1C, 0);
    PutLe32(image, 0x20, if g.totalSectors > 0xFFFF then g.totalSectors else 0);
  }

  /** The rest of the boot sector: drive number, label, file system name and signature. */
  method WriteBootTail(image: array<byte>)
    requires image.Length >= SECTOR_SIZE
    modifies image
    ensures image[0x1FE] == 0x55 && image[0x1FF] == 0xAA
    ensures forall k :: 0 <= k < image.Length && !(0x24 <= k < SECTOR_SIZE) ==> image[k] == old(image[k])
  {
    image[0x24], image[0x25], image[0x26] := 0x80, 0, 0x29;
    PutLe32(image, 0x27, 0);
    CopyInto(image, 0x2B, [0x50, 0x55, 0x47, 0x50, 0x55, 0x54, 0x45, 0x52, 0x20, 0x20, 0x20]);
    CopyInto(image, 0x36, [0x46, 0x41, 0x54, 0x31, 0x36, 0x20, 0x20, 0x20]);
    image[0x1FE], image[0x1FF] := 0x55, 0xAA;
  }

  /** The link stored for cluster `c`. */
  ghost function Link(fat: array<byte>, c: nat): int
    requires 2 * c + 2 <= fat.Length
    reads fat
  {
    fat[2 * c] as int + 0x100 * fat[2 * c + 1] as int
  }

  /** The FAT holds the links of the first `k` extents, and 0 for every cluster after them. */
  ghost predicate LinksUpTo(fat: array<byte>, lens: seq<nat>, k: nat)
    requires k <= |lens|
    reads fat
  {
    forall c: nat :: 2 * c + 2 <= fat.Length ==> LinkOkTo(lens, k, c, Link(fat, c))
  }

  /** Allocates `n` consecutive clusters and chains them; the first is 0 if there are none. */
  method Allocate(fat: array<byte>, next: u16, n: nat) returns (first: u16, next': u16)
    requires 2 <= next && next + n < WORD_16 && 2 * (next + n) <= fat.Length
    modifies fat
    ensures first == (if n == 0 then 0 else next) && next' == next + n
    ensures forall c: nat :: 2 * c + 2 <= fat.Length ==>
              Link(fat, c) == if next <= c < next + n then (if c + 1 < next + n then c + 1 else END_OF_CHAIN)
                              else old(Link(fat, c))
  {
    if n == 0 { return 0, next; }
    first := next;
    for c := 0 to n
      invariant forall d: nat :: 2 * d + 2 <= fat.Length ==>
                  Link(fat, d) == if next <= d < next + c then (if d + 1 < next + n then d + 1 else END_OF_CHAIN)
                                  else old(Link(fat, d))
    {
      label before:
      PutLe16(fat, 2 * (first + c), if c + 1 < n then first + c + 1 else END_OF_CHAIN);
      assert forall d: nat :: 2 * d + 2 <= fat.Length && d != first + c ==> Link(fat, d) == old@before(Link(fat, d));
    }
    next' := next + n;
  }

  // ---- the tree ----

  /** Directories as the first pass leaves them: their subdirectories known, nothing in them yet. */
  ghost predicate DirsPlanned(dirs: seq<Dir>, t: Tree) {
    && |dirs| == |t|
    && forall d :: 0 <= d < |t| ==> dirs[d] == Dir([], 0, Children(t, d, |t|))
  }

  lemma {:induction false} ChildrenOfLonger(t: Tree, node: Node, d: nat, n: nat)
    requires n <= |t|
    ensures Children(t + [node], d, n) == Children(t, d, n)
  {
    if n > 1 { ChildrenOfLonger(t, node, d, n - 1); }
  }

  lemma {:induction false} ChildrenExactly(t: Tree, d: nat, n: nat, s: Sub)
    requires n <= |t|
    ensures s in Children(t, d, n) <==> 0 < s.dir < n && t[s.dir] == Node(d, s.name)
  {
    if n > 1 { ChildrenExactly(t, d, n - 1, s); }
  }

  /** The subdirectory called `part`, or 0. */
  method FindChild(subdirs: seq<Sub>, part: Name, ghost t: Tree, ghost d: nat) returns (child: nat)
    requires TreeOk(t) && subdirs == Children(t, d, |t|)
    ensures child == ChildAt(t, d, part, |t|)
  {
    child := 0;
    ghost var want := ChildAt(t, d, part, |t|);
    for k := 0 to |subdirs|
      invariant child == 0 || child == want
      invariant child == 0 ==> forall j :: 0 <= j < k ==> subdirs[j].name != part
    {
      if subdirs[k].name == part {
        child := subdirs[k].dir;
        ChildrenExactly(t, d, |t|, subdirs[k]);
      }
    }
    if want != 0 {
      ChildrenExactly(t, d, |t|, Sub(part, want));
      assert child != 0;
    }
  }

  /** First pass: the tree's shape, and where each file goes. */
  method PlanTree(files: seq<File>) returns (dirs: seq<Dir>, placed: seq<Spot>, ghost t: Tree)
    ensures t == PlaceAll(files).0 && PlanOk(files, t, placed)
    ensures placed == PlaceAll(files).1 && DirsPlanned(dirs, PlaceAll(files).0)
  {
    dirs, placed := [Dir([], 0, [])], [];
    t := [ROOT];
    for fi := 0 to |files|
      invariant (t, placed) == PlaceAll(files[..fi])
      invariant TreeOk(t) && DirsPlanned(dirs, t)
    {
      assert files[..fi + 1][..fi] == files[..fi];
      var dir;
      var leaf;
      dirs, dir, leaf, t := PlanFile(files[fi].name, dirs, t);
      placed := placed + [Spot(dir, leaf)];
    }
    assert files[..|files|] == files;
    PlaceAllOk(files);
  }

  method PlanFile(name: Bytes, dirs0: seq<Dir>, ghost t0: Tree)
    returns (dirs: seq<Dir>, dir: nat, leaf: Name, ghost t: Tree)
    requires TreeOk(t0) && DirsPlanned(dirs0, t0)
    ensures (t, dir) == Place(t0, 0, DirParts(name)) && leaf == Leaf(name)
    ensures TreeOk(t) && DirsPlanned(dirs, t)
  {
    dirs, dir, leaf, t := dirs0, 0, name, t0;
    var slash := IndexOf(leaf, SLASH);
    while slash != |leaf|
      invariant slash == IndexOf(leaf, SLASH)
      invariant TreeOk(t) && DirsPlanned(dirs, t) && dir < |t|
      invariant Place(t, dir, DirParts(leaf)) == Place(t0, 0, DirParts(name))
      invariant Leaf(leaf) == Leaf(name)
      decreases |leaf|
    {
      var part := Upper(leaf[..slash]);
      ghost var parts := DirParts(leaf);
      leaf := leaf[slash + 1..];
      slash := IndexOf(leaf, SLASH);
      assert parts == (if part == [] then [] else [part]) + DirParts(leaf);
      if part == [] {
        assert parts == DirParts(leaf);
      } else {
        assert parts[0] == part && parts[1..] == DirParts(leaf);
        var child := FindChild(dirs[dir].subdirs, part, t, dir);
        if child == 0 {
          child := |dirs|;
          dirs := AddDirectory(dirs, dir, part, t);
          assert Place(t, dir, parts) == Place(t + [Node(dir, part)], child, parts[1..]);
          t := t + [Node(dir, part)];
        } else {
          assert Place(t, dir, parts) == Place(t, child, parts[1..]);
        }
        dir := child;
      }
    }
  }

  method AddDirectory(dirs0: seq<Dir>, dir: nat, part: Name, ghost t: Tree) returns (dirs: seq<Dir>)
    requires TreeOk(t) && DirsPlanned(dirs0, t) && dir < |t|
    requires forall k :: 0 < k < |t| ==> t[k] != Node(dir, part)
    ensures TreeOk(t + [Node(dir, part)]) && DirsPlanned(dirs, t + [Node(dir, part)])
  {
    dirs := dirs0[dir := dirs0[dir].(subdirs := dirs0[dir].subdirs + [Sub(part, |dirs0|)])];
    dirs := dirs + [Dir([], 0, [])];
    GrowOk(t, dir, part);
    ghost var u := t + [Node(dir, part)];
    forall d | 0 <= d < |u|
      ensures dirs[d] == Dir([], 0, Children(u, d, |u|))
    {
      ChildrenOfLonger(t, Node(dir, part), d, |t|);
      if d == |t| { NoChildrenYet(t, d, |t|); }
    }
  }

  lemma {:induction false} NoChildrenYet(t: Tree, d: nat, n: nat)
    requires TreeOk(t) && n <= |t| <= d
    ensures Children(t, d, n) == []
  {
    if n > 1 { NoChildrenYet(t, d, n - 1); }
  }

  /** Each directory's entry count. */
  method CountEntries(dirs: seq<Dir>, placed: seq<Spot>, ghost t: Tree) returns (counts: seq<nat>)
    requires TreeOk(t) && DirsPlanned(dirs, t)
    requires forall i :: 0 <= i < |placed| ==> placed[i].dir < |t|
    ensures |counts| == |t|
    ensures forall d :: 0 <= d < |t| ==> counts[d] == EntryCount(t, placed, d)
  {
    counts := [];
    for d := 0 to |dirs|
      invariant |counts| == d
      invariant forall e :: 0 <= e < d ==> counts[e] == |Children(t, e, |t|)| + DotEntries(e)
    {
      counts := counts + [|dirs[d].subdirs| + (if d == 0 then 0 else 2)];
    }
    assert placed[..0] == [];
    for i := 0 to |placed|
      invariant |counts| == |t|
      invariant forall d :: 0 <= d < |t| ==>
                  counts[d] == |Children(t, d, |t|)| + CountFiles(placed[..i], d) + DotEntries(d)
    {
      assert placed[..i + 1][..i] == placed[..i];
      counts := counts[placed[i].dir := counts[placed[i].dir] + 1];
    }
    assert placed[..|placed|] == placed;
  }

  /** The directory each directory is in. */
  method Parents(dirs: seq<Dir>, ghost t: Tree) returns (parent: seq<nat>)
    requires TreeOk(t) && |dirs| == |t|
    requires forall d :: 0 <= d < |t| ==> dirs[d].subdirs == Children(t, d, |t|)
    ensures |parent| == |t| && forall c :: 0 <= c < |t| ==> parent[c] == t[c].parent
  {
    parent := seq(|dirs|, _ => 0);
    for d := 0 to |dirs|
      invariant |parent| == |t|
      invariant forall c :: 0 <= c < |t| ==> parent[c] == if t[c].parent < d then t[c].parent else 0
    {
      var subs := dirs[d].subdirs;
      for k := 0 to |subs|
        invariant |parent| == |t|
        invariant forall c :: 0 <= c < |t| ==>
                    parent[c] == if t[c].parent < d || (exists j :: 0 <= j < k && subs[j].dir == c)
                                 then t[c].parent else 0
      {
        ChildrenExactly(t, d, |t|, subs[k]);
        parent := parent[subs[k].dir := d];
      }
      forall j | 0 <= j < |subs|
        ensures subs[j].dir < |t| && t[subs[j].dir].parent == d
      {
        ChildrenExactly(t, d, |t|, subs[j]);
      }
      forall c | 0 <= c < |t| && t[c].parent == d && c != 0
        ensures exists j :: 0 <= j < |subs| && subs[j].dir == c
      {
        ChildrenExactly(t, d, |t|, Sub(t[c].name, c));
      }
    }
  }

  // ---- clusters ----

  lemma ExtendLink(lens: seq<nat>, k: nat, c: nat, before: int, after: int)
    requires k < |lens| && LinkOkTo(lens, k, c, before)
    requires after == if Start(lens, k) <= c < Start(lens, k + 1)
                      then (if c + 1 < Start(lens, k + 1) then c + 1 else END_OF_CHAIN) else before
    ensures LinkOkTo(lens, k + 1, c, after)
  {
    forall j | j < k + 1 && InExtent(lens, j, c)
      ensures after == NextInExtent(lens, j, c)
    {
      if j < k {
        SumMonotone(lens, j + 1, k);
      }
    }
  }

  /** Allocates extent `k`. */
  method AllocateExtent(fat: array<byte>, next: u16, ghost lens: seq<nat>, ghost k: nat, n: nat)
    returns (first: u16, next': u16)
    requires k < |lens| && lens[k] == n
    requires next == Start(lens, k) && Start(lens, k + 1) < WORD_16 && 2 * Start(lens, k + 1) <= fat.Length
    requires LinksUpTo(fat, lens, k)
    modifies fat
    ensures LinksUpTo(fat, lens, k + 1)
    ensures first == (if n == 0 then 0 else Start(lens, k)) && next' == Start(lens, k + 1)
  {
    label before:
    first, next' := Allocate(fat, next, n);
    forall c: nat | 2 * c + 2 <= fat.Length
      ensures LinkOkTo(lens, k + 1, c, Link(fat, c))
    {
      assert old@before(LinkOkTo(lens, k, c, Link(fat, c)));
      ExtendLink(lens, k, c, old@before(Link(fat, c)), Link(fat, c));
    }
  }

  method InitFat(fat: array<byte>, media: byte, ghost lens: seq<nat>)
    requires media == MEDIA
    requires fat.Length >= 4 && forall k :: 0 <= k < fat.Length ==> fat[k] == 0
    modifies fat
    ensures LinksUpTo(fat, lens, 0)
  {
    PutLe16(fat, 0, 0xFF00 + media);
    PutLe16(fat, 2, 0xFFFF);
    forall c: nat | 2 * c + 2 <= fat.Length
      ensures LinkOkTo(lens, 0, c, Link(fat, c))
    {
    }
  }

  /** Directories with their clusters. */
  ghost predicate DirsAllocated(dirs: seq<Dir>, t: Tree, lens: seq<nat>)
    requires |t| > 0 && |lens| >= |t| - 1
  {
    && |dirs| == |t|
    && forall d :: 0 <= d < |t| ==>
         dirs[d].entries == [] && dirs[d].cluster == DirCluster(t, lens, d) && dirs[d].subdirs == Children(t, d, |t|)
  }

  lemma ExtentOfDir(t: Tree, spots: seq<Spot>, files: seq<File>, spc: nat, d: nat)
    requires spc > 0 && 0 < d < |t|
    ensures Extents(t, spots, files, spc)[d - 1] == CeilDiv(EntryCount(t, spots, d) * 32, spc * SECTOR_SIZE)
    ensures Extents(t, spots, files, spc)[d - 1] > 0
  {
    CeilDivBounds(EntryCount(t, spots, d) * 32, spc * SECTOR_SIZE);
  }

  method AllocateDirs(dirs0: seq<Dir>, counts: seq<nat>, spc: nat, fat: array<byte>, ghost t: Tree,
                      ghost lens: seq<nat>)
    returns (dirs: seq<Dir>, next: u16)
    requires spc > 0 && |t| > 0 && |lens| >= |t| - 1
    requires DirsPlanned(dirs0, t)
    requires |counts| == |t|
    requires forall d :: 0 < d < |t| ==> lens[d - 1] == CeilDiv(counts[d] * 32, spc * SECTOR_SIZE) > 0
    requires Start(lens, |lens|) < WORD_16 && 2 * Start(lens, |lens|) <= fat.Length
    requires LinksUpTo(fat, lens, 0)
    modifies fat
    ensures DirsAllocated(dirs, t, lens)
    ensures LinksUpTo(fat, lens, |t| - 1) && next == Start(lens, |t| - 1)
  {
    dirs, next := dirs0, 2;
    for d := 1 to |dirs0|
      invariant |dirs| == |t|
      invariant next == Start(lens, d - 1) && LinksUpTo(fat, lens, d - 1)
      invariant forall e :: 0 <= e < d ==> dirs[e] == dirs0[e].(cluster := dirs[e].cluster)
      invariant forall e :: 0 <= e < d ==> dirs[e].cluster == DirCluster(t, lens, e)
      invariant forall e :: d <= e < |t| ==> dirs[e] == dirs0[e]
    {
      SumMonotone(lens, d, |lens|);
      var first;
      first, next := AllocateExtent(fat, next, lens, d - 1, CeilDiv(counts[d] * 32, spc * SECTOR_SIZE));
      dirs := dirs[d := dirs[d].(cluster := first)];
    }
  }

  /** Directories, each with the entries made so far: the dot entries and those of `items`. */
  ghost predicate DirsFilled(files: seq<File>, t: Tree, spots: seq<Spot>, lens: seq<nat>, dirs: seq<Dir>,
                             items: seq<seq<Item>>)
    requires TreeOk(t) && |spots| == |files| && |lens| == |t| - 1 + |files|
  {
    && |dirs| == |t| && |items| == |t|
    && forall d :: 0 <= d < |t| ==> DirFilled(files, t, spots, lens, dirs[d], d, items[d])
  }

  predicate DirFilled(files: seq<File>, t: Tree, spots: seq<Spot>, lens: seq<nat>, dir: Dir, d: nat, items: seq<Item>)
    requires TreeOk(t) && |spots| == |files| && |lens| == |t| - 1 + |files| && d < |t|
  {
    && ItemsInRange(files, t, items)
    && dir.entries == Encode(DirSlots(files, t, spots, lens, d, items))
    && dir.cluster == DirCluster(t, lens, d)
    && dir.subdirs == Children(t, d, |t|)
  }

  /** "." and ".." in every directory but the root. */
  method AddDots(dirs0: seq<Dir>, parent: seq<nat>, ghost t: Tree, ghost spots: seq<Spot>, ghost files: seq<File>,
                 ghost lens: seq<nat>)
    returns (dirs: seq<Dir>, ghost items: seq<seq<Item>>)
    requires TreeOk(t) && |spots| == |files| && |lens| == |t| - 1 + |files|
    requires DirsAllocated(dirs0, t, lens)
    requires |parent| == |t| && forall c :: 0 <= c < |t| ==> parent[c] == t[c].parent
    ensures DirsFilled(files, t, spots, lens, dirs, items)
    ensures |items| == |t| && forall d :: 0 <= d < |t| ==> items[d] == []
  {
    items := seq(|t|, _ => []);
    dirs := dirs0;
    for d := 1 to |dirs0|
      invariant |dirs| == |t|
      invariant forall e :: 0 <= e < d ==> DirFilled(files, t, spots, lens, dirs[e], e, [])
      invariant forall e :: d <= e < |t| ==> dirs[e] == dirs0[e]
      invariant forall e :: 0 <= e < |t| ==> dirs[e].cluster == DirCluster(t, lens, e)
    {
      var entries := AddEntry(dirs[d].entries, [DOT], ATTR_DIRECTORY, dirs[d].cluster, 0);
      entries := AddEntry(entries, [DOT, DOT], ATTR_DIRECTORY, dirs[parent[d]].cluster, 0);
      EncodeDots(t, lens, d);
      dirs := dirs[d := dirs[d].(entries := entries)];
      assert DirSlots(files, t, spots, lens, d, []) == DotSlots(t, lens, d);
    }
  }

  lemma EncodeDots(t: Tree, lens: seq<nat>, d: nat)
    requires TreeOk(t) && 0 < d < |t| && |lens| >= |t| - 1
    ensures Encode(DotSlots(t, lens, d)) == [] + SlotBytes(DotSlots(t, lens, d)[0]) + SlotBytes(DotSlots(t, lens, d)[1])
  {
    var slots := DotSlots(t, lens, d);
    assert slots[..1][..0] == [];
    assert Encode(slots[..1]) == Encode(slots[..1][..0]) + SlotBytes(slots[0]);
    assert Encode(slots) == Encode(slots[..1]) + SlotBytes(slots[1]);
  }
}
