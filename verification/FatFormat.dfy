/** The on-disk format: directory entries, cluster extents and FAT links, and what it means
    for an image to hold a planned set of files. */
module FatFormat {
  import opened Words
  import opened FatGeometry
  import opened FatNames
  import opened FatTree

  const ATTR_DIRECTORY: byte := 0x10
  const ATTR_ARCHIVE: byte := 0x20
  const END_OF_CHAIN: u16 := 0xFFFF

  // ---- directory entries ----

  /** One 32-byte directory entry. */
  datatype Slot = Slot(field: Bytes, attr: byte, cluster: nat, size: nat)

  predicate SlotOk(s: Slot) { |s.field| == 11 }

  function SlotBytes(s: Slot): (r: Bytes)
    ensures SlotOk(s) ==> |r| == 32
  {
    s.field + [s.attr] + Zeros(14) + Le16Bytes(ToU16(s.cluster)) + Le32Bytes(ToU32(s.size))
  }

  /** Directory entries one after another. */
  function Encode(slots: seq<Slot>): Bytes {
    if slots == [] then [] else Encode(slots[..|slots| - 1]) + SlotBytes(slots[|slots| - 1])
  }

  lemma {:induction false} EncodeLength(slots: seq<Slot>)
    requires forall k :: 0 <= k < |slots| ==> SlotOk(slots[k])
    ensures |Encode(slots)| == 32 * |slots|
  {
    if slots != [] { EncodeLength(slots[..|slots| - 1]); }
  }

  lemma {:induction false} EncodeAt(slots: seq<Slot>, k: nat)
    requires forall k :: 0 <= k < |slots| ==> SlotOk(slots[k])
    requires k < |slots|
    ensures At(Encode(slots), 32 * k, SlotBytes(slots[k]))
  {
    var n := |slots| - 1;
    EncodeLength(slots);
    EncodeLength(slots[..n]);
    if k < n {
      EncodeAt(slots[..n], k);
      assert Encode(slots)[32 * k..32 * k + 32] == Encode(slots[..n])[32 * k..32 * k + 32];
    }
  }

  // ---- the plan of a volume ----

  /** The files of a volume, its directories, and the entries of each directory in order. */
  datatype Plan = Plan(files: seq<File>, tree: Tree, spots: seq<Spot>, items: seq<seq<Item>>)

  /** Every directory's list has exactly its entries. */
  ghost predicate Listed(p: Plan) {
    && TreeOk(p.tree) && |p.spots| == |p.files| && |p.items| == |p.tree|
    && forall d :: 0 <= d < |p.tree| ==> ListsExactly(p.tree, p.spots, d, p.items[d])
  }

  ghost predicate PlanComplete(p: Plan) { PlanOk(p.files, p.tree, p.spots) && Listed(p) }

  /** Sizes that go together: one extent for each directory but the root and for each file. */
  predicate Shaped(p: Plan, lens: seq<nat>) {
    TreeOk(p.tree) && |p.spots| == |p.files| && |p.items| == |p.tree| && |lens| == |p.tree| - 1 + |p.files|
  }

  /** How many clusters each thing on the volume takes: the directories but the root, then the
      files. */
  function Extents(tree: Tree, spots: seq<Spot>, files: seq<File>, spc: nat): (r: seq<nat>)
    requires spc > 0 && |tree| > 0
    ensures |r| == |tree| - 1 + |files|
  {
    seq(|tree| - 1 + |files|, k requires 0 <= k < |tree| - 1 + |files| =>
      if k < |tree| - 1 then CeilDiv(EntryCount(tree, spots, k + 1) * 32, spc * SECTOR_SIZE)
      else CeilDiv(|files[k - (|tree| - 1)].data|, spc * SECTOR_SIZE))
  }

  /** An extent is the fewest clusters that hold what it is for: 32 bytes an entry, or a file's bytes. */
  lemma ExtentsAreTight(tree: Tree, spots: seq<Spot>, files: seq<File>, spc: nat, k: nat)
    requires spc > 0 && |tree| > 0 && k < |tree| - 1 + |files|
    ensures var size := if k < |tree| - 1 then 32 * EntryCount(tree, spots, k + 1) else |files[k - (|tree| - 1)].data|;
            0 <= Extents(tree, spots, files, spc)[k] * (spc * 512) - size < spc * 512
  {
    CeilDivBounds(if k < |tree| - 1 then EntryCount(tree, spots, k + 1) * 32 else |files[k - (|tree| - 1)].data|,
                  spc * SECTOR_SIZE);
  }

  function Sum(lens: seq<nat>, k: nat): nat
    requires k <= |lens|
  {
    if k == 0 then 0 else Sum(lens, k - 1) + lens[k - 1]
  }

  /** First cluster of extent `k`: extents follow each other from cluster 2 on. */
  function Start(lens: seq<nat>, k: nat): nat
    requires k <= |lens|
  {
    2 + Sum(lens, k)
  }

  lemma {:induction false} SumMonotone(lens: seq<nat>, j: nat, k: nat)
    requires j <= k <= |lens|
    ensures Sum(lens, j) <= Sum(lens, k)
    decreases k
  {
    if j < k { SumMonotone(lens, j, k - 1); }
  }

  function DirCluster(tree: Tree, lens: seq<nat>, d: nat): nat
    requires d < |tree| && |lens| >= |tree| - 1
  {
    if d == 0 then 0 else Start(lens, d - 1)
  }

  function FileCluster(tree: Tree, lens: seq<nat>, i: nat): nat
    requires |tree| > 0 && |tree| - 1 + i < |lens|
  {
    if lens[|tree| - 1 + i] == 0 then 0 else Start(lens, |tree| - 1 + i)
  }

  function ItemSlot(files: seq<File>, tree: Tree, spots: seq<Spot>, lens: seq<nat>, x: Item): (s: Slot)
    requires |spots| == |files| && |tree| > 0 && |lens| == |tree| - 1 + |files|
    requires if x.SubDir? then x.dir < |tree| else x.index < |files|
    ensures SlotOk(s)
  {
    match x
    case SubDir(c) => Slot(NameField(tree[c].name), ATTR_DIRECTORY, DirCluster(tree, lens, c), 0)
    case FileAt(i) => Slot(NameField(spots[i].leaf), ATTR_ARCHIVE, FileCluster(tree, lens, i), |files[i].data|)
  }

  function DotSlots(tree: Tree, lens: seq<nat>, d: nat): (r: seq<Slot>)
    requires TreeOk(tree) && d < |tree| && |lens| >= |tree| - 1
    ensures |r| == DotEntries(d)
    ensures forall k :: 0 <= k < |r| ==> SlotOk(r[k])
  {
    if d == 0 then []
    else [Slot(DotName(1), ATTR_DIRECTORY, DirCluster(tree, lens, d), 0),
          Slot(DotName(2), ATTR_DIRECTORY, DirCluster(tree, lens, tree[d].parent), 0)]
  }

  /** The items of a directory are about things that exist. */
  predicate ItemsInRange(files: seq<File>, tree: Tree, items: seq<Item>) {
    forall k :: 0 <= k < |items| ==> if items[k].SubDir? then items[k].dir < |tree| else items[k].index < |files|
  }

  /** All entries of a directory: the dot entries, then one for each item. */
  function DirSlots(files: seq<File>, tree: Tree, spots: seq<Spot>, lens: seq<nat>, d: nat,
                    items: seq<Item>): (r: seq<Slot>)
    requires TreeOk(tree) && d < |tree| && |spots| == |files| && |lens| == |tree| - 1 + |files|
    requires ItemsInRange(files, tree, items)
    ensures |r| == DotEntries(d) + |items|
    ensures forall k :: 0 <= k < |r| ==> SlotOk(r[k])
  {
    DotSlots(tree, lens, d) + seq(|items|, k requires 0 <= k < |items| => ItemSlot(files, tree, spots, lens, items[k]))
  }

  /** The slots of a directory of the plan. */
  function SlotsIn(p: Plan, lens: seq<nat>, d: nat): (r: seq<Slot>)
    requires Shaped(p, lens) && d < |p.tree| && ItemsInRange(p.files, p.tree, p.items[d])
    ensures |r| == DotEntries(d) + |p.items[d]|
    ensures forall k :: 0 <= k < |r| ==> SlotOk(r[k])
  {
    DirSlots(p.files, p.tree, p.spots, lens, d, p.items[d])
  }

  // ---- an image that holds a plan ----

  /** What an accepted volume's geometry satisfies: its regions follow each other, and its
      clusters end inside it. */
  ghost predicate LaidOut(g: Geometry) {
    && 0 < g.sectorsPerCluster <= 0xFF && g.numFats <= 0xFF
    && g.rootEntries <= 0xFFFF && g.rootSectors == CeilDiv(g.rootEntries * 32, SECTOR_SIZE)
    && 0 < g.reserved <= 0xFFFF && g.fatLba == g.reserved && g.sectorsPerFat <= 0xFFFF
    && g.rootLba == g.fatLba + g.numFats * g.sectorsPerFat
    && g.dataLba == g.rootLba + g.rootSectors
    && g.dataLba <= g.totalSectors < WORD_32
    && g.clusters == Div(g.totalSectors - g.dataLba, g.sectorsPerCluster)
    && g.clusters * g.sectorsPerCluster <= g.totalSectors - g.dataLba
    && MIN_CLUSTERS <= g.clusters <= MAX_CLUSTERS
  }

  /** A layout the reader finds again: there is a FAT, and the root directory fills its sectors. */
  ghost predicate GeometryOk(g: Geometry) { LaidOut(g) && g.numFats > 0 && g.rootEntries % 16 == 0 }

  lemma RootFillsSectors(rootEntries: nat)
    ensures CeilDiv(rootEntries * 32, SECTOR_SIZE) == (rootEntries + 15) / 16
    ensures rootEntries % 16 == 0 <==> CeilDiv(rootEntries * 32, SECTOR_SIZE) == rootEntries / 16
  {
  }

  /** Byte offset of a cluster in the image. */
  function ClusterOffset(g: Geometry, c: nat): nat
    requires c >= 2
  {
    (g.dataLba + (c - 2) * g.sectorsPerCluster) * SECTOR_SIZE
  }

  function FatOffset(g: Geometry, copy: nat, c: nat): nat {
    (g.fatLba + copy * g.sectorsPerFat) * SECTOR_SIZE + 2 * c
  }

  /** The boot sector's fields, where the format puts them. */
  predicate BootSectorOk(img: Bytes, g: Geometry) {
    && |img| >= SECTOR_SIZE
    && Le16(img, 0x0B) == SECTOR_SIZE
    && img[0x0D] == g.sectorsPerCluster
    && Le16(img, 0x0E) == g.reserved
    && img[0x10] == g.numFats
    && Le16(img, 0x11) == g.rootEntries
    && Le16(img, 0x13) == (if g.totalSectors <= 0xFFFF then g.totalSectors else 0)
    && Le16(img, 0x16) == g.sectorsPerFat
    && Le32(img, 0x20) == (if g.totalSectors <= 0xFFFF then 0 else g.totalSectors)
    && img[0x1FE] == 0x55 && img[0x1FF] == 0xAA
  }

  /** Cluster `c` is in extent `k`. */
  predicate InExtent(lens: seq<nat>, k: int, c: nat) {
    0 <= k < |lens| && Start(lens, k) <= c < Start(lens, k + 1)
  }

  lemma {:induction false} ExtentHolding(lens: seq<nat>, c: nat, n: nat) returns (k: nat)
    requires n <= |lens| && 2 <= c < Start(lens, n)
    ensures k < n && InExtent(lens, k, c)
  {
    if c >= Start(lens, n - 1) { k := n - 1; } else { k := ExtentHolding(lens, c, n - 1); }
  }

  function NextInExtent(lens: seq<nat>, k: nat, c: nat): nat
    requires k < |lens|
  {
    if c + 1 < Start(lens, k + 1) then c + 1 else END_OF_CHAIN
  }

  /** The link of cluster `c` when the first `n` extents are allocated: the next cluster, the
      end mark in an extent's last, 0 beyond the extents. */
  ghost predicate LinkOkTo(lens: seq<nat>, n: nat, c: nat, link: int)
    requires n <= |lens|
  {
    && (c == 0 ==> link == 0xFFF8)
    && (c == 1 ==> link == 0xFFFF)
    && (forall k :: k < n && InExtent(lens, k, c) ==> link == NextInExtent(lens, k, c))
    && (c >= Start(lens, n) ==> link == 0)
  }

  ghost predicate LinkOk(lens: seq<nat>, c: nat, link: int) { LinkOkTo(lens, |lens|, c, link) }

  ghost predicate FatCopyOk(img: Bytes, g: Geometry, lens: seq<nat>, copy: nat) {
    forall c :: 0 <= c < 256 * g.sectorsPerFat ==>
      FatOffset(g, copy, c) + 2 <= |img| && LinkOk(lens, c, Le16(img, FatOffset(g, copy, c)))
  }

  /** `slots` are stored from `off` on, and zeros fill the rest of `room` bytes. */
  predicate DirStored(img: Bytes, off: nat, slots: seq<Slot>, room: nat) {
    && off + room <= |img| && 32 * |slots| <= room
    && (forall k :: 0 <= k < |slots| ==> At(img, off + 32 * k, SlotBytes(slots[k])))
    && (forall i :: off + 32 * |slots| <= i < off + room ==> img[i] == 0)
  }

  /** The extents have room: in the clusters of the volume and in the entries of its FAT. */
  ghost predicate ExtentsFit(g: Geometry, lens: seq<nat>) {
    && Sum(lens, |lens|) <= g.clusters
    && Start(lens, |lens|) <= 256 * g.sectorsPerFat
  }

  function DirRoom(g: Geometry, lens: seq<nat>, d: nat): nat
    requires d == 0 || d - 1 < |lens|
  {
    if d == 0 then g.rootSectors * SECTOR_SIZE else lens[d - 1] * (g.sectorsPerCluster * SECTOR_SIZE)
  }

  function DirOffset(g: Geometry, lens: seq<nat>, d: nat): nat
    requires d == 0 || d - 1 < |lens|
  {
    if d == 0 then g.rootLba * SECTOR_SIZE else ClusterOffset(g, Start(lens, d - 1))
  }

  /** The image holds the plan: boot sector, FAT copies, directories and file contents are all
      where the format puts them. */
  ghost predicate Holds(img: Bytes, g: Geometry, p: Plan) { GeometryOk(g) && Stored(img, g, p) }

  /** All the parts of a plan are in the image where the geometry puts them. */
  ghost predicate Stored(img: Bytes, g: Geometry, p: Plan) {
    && LaidOut(g) && PlanComplete(p)
    && |img| == g.totalSectors * SECTOR_SIZE
    && BootSectorOk(img, g)
    && var lens := Extents(p.tree, p.spots, p.files, g.sectorsPerCluster);
    && ExtentsFit(g, lens)
    && (forall copy :: 0 <= copy < g.numFats ==> FatCopyOk(img, g, lens, copy))
    && (forall d :: 0 <= d < |p.tree| ==> DirHeld(img, g, p, lens, d))
    && (forall i :: 0 <= i < |p.files| ==> FileHeld(img, g, p, lens, i))
  }

  ghost predicate DirHeld(img: Bytes, g: Geometry, p: Plan, lens: seq<nat>, d: nat)
    requires Shaped(p, lens) && d < |p.tree|
  {
    && ItemsInRange(p.files, p.tree, p.items[d])
    && DirStored(img, DirOffset(g, lens, d), SlotsIn(p, lens, d), DirRoom(g, lens, d))
  }

  ghost predicate FileHeld(img: Bytes, g: Geometry, p: Plan, lens: seq<nat>, i: nat)
    requires Shaped(p, lens) && i < |p.files|
  {
    At(img, ClusterOffset(g, Start(lens, |p.tree| - 1 + i)), p.files[i].data)
  }

  lemma ItemsAreInRange(p: Plan, d: nat)
    requires Listed(p) && d < |p.tree|
    ensures ItemsInRange(p.files, p.tree, p.items[d])
  {
    forall k | 0 <= k < |p.items[d]|
      ensures if p.items[d][k].SubDir? then p.items[d][k].dir < |p.tree| else p.items[d][k].index < |p.files|
    {
      assert ListsExactly(p.tree, p.spots, d, p.items[d]) && p.items[d][k] in p.items[d];
      assert Belongs(p.tree, p.spots, d, p.items[d][k]);
    }
  }

  // ---- where extents lie in the image ----

  function ExtentOffset(g: Geometry, lens: seq<nat>, k: nat): nat
    requires k <= |lens|
  {
    ClusterOffset(g, Start(lens, k))
  }

  lemma OffsetOfNext(g: Geometry, c: nat, n: nat)
    requires c >= 2
    ensures ClusterOffset(g, c + n) == ClusterOffset(g, c) + n * (g.sectorsPerCluster * SECTOR_SIZE)
  {
    MulDist(c - 2, n, g.sectorsPerCluster);
    assert n * (g.sectorsPerCluster * SECTOR_SIZE) == n * g.sectorsPerCluster * SECTOR_SIZE;
  }

  lemma OffsetsInOrder(g: Geometry, c: nat, d: nat)
    requires 2 <= c <= d
    ensures g.dataLba * SECTOR_SIZE <= ClusterOffset(g, c) <= ClusterOffset(g, d)
  {
    MulMono(0, c - 2, g.sectorsPerCluster);
    MulMono(c - 2, d - 2, g.sectorsPerCluster);
  }

  lemma LastOffset(g: Geometry, c: nat)
    requires LaidOut(g) && 2 <= c <= g.clusters + 2
    ensures ClusterOffset(g, c) <= g.totalSectors * SECTOR_SIZE
  {
    MulMono(c - 2, g.clusters, g.sectorsPerCluster);
  }

  /** Extents lie one after another, from the start of the data area to the end of the image
      at most. */
  lemma ExtentOffsets(g: Geometry, lens: seq<nat>, k: nat)
    requires LaidOut(g) && ExtentsFit(g, lens) && k < |lens|
    ensures ExtentOffset(g, lens, k + 1) == ExtentOffset(g, lens, k) + lens[k] * (g.sectorsPerCluster * SECTOR_SIZE)
    ensures g.dataLba * SECTOR_SIZE <= ExtentOffset(g, lens, k)
    ensures ExtentOffset(g, lens, k) <= ExtentOffset(g, lens, k + 1) <= g.totalSectors * SECTOR_SIZE
  {
    SumMonotone(lens, k + 1, |lens|);
    OffsetOfNext(g, Start(lens, k), lens[k]);
    OffsetsInOrder(g, Start(lens, k), Start(lens, k + 1));
    LastOffset(g, Start(lens, k + 1));
  }

  lemma ExtentsInOrder(g: Geometry, lens: seq<nat>, j: nat, k: nat)
    requires j <= k <= |lens|
    ensures ExtentOffset(g, lens, j) <= ExtentOffset(g, lens, k)
  {
    SumMonotone(lens, j, k);
    OffsetsInOrder(g, Start(lens, j), Start(lens, k));
  }

  lemma LinkIs(lens: seq<nat>, c: nat, k: nat, i: nat, link: int)
    requires LinkOk(lens, c, link) && k < |lens| && i < lens[k]
    ensures c == 0 ==> link == 0xFFF8
    ensures c == 1 ==> link == 0xFFFF
    ensures c == 2 + Sum(lens, k) + i ==> link == if i + 1 < lens[k] then c + 1 else 0xFFFF
    ensures c >= 2 + Sum(lens, |lens|) ==> link == 0
  {
    if c == 2 + Sum(lens, k) + i {
      assert Start(lens, k + 1) == Start(lens, k) + lens[k];
      assert InExtent(lens, k, c);
    }
  }

  /** A copy of the FAT, entry by entry: the two reserved ones, the clusters of each extent leading to the
      next and the last marked as the end, and 0 for the clusters handed to none. */
  lemma FatWritten(img: Bytes, g: Geometry, lens: seq<nat>, copy: nat, c: nat, k: nat, i: nat)
    requires FatCopyOk(img, g, lens, copy) && c < 256 * g.sectorsPerFat && k < |lens| && i < lens[k]
    ensures var at := (g.fatLba + copy * g.sectorsPerFat) * 512 + 2 * c;
            && 0 <= at <= at + 2 <= |img|
            && (c == 0 ==> Le16(img, at) == 0xFFF8) && (c == 1 ==> Le16(img, at) == 0xFFFF)
            && (c == 2 + Sum(lens, k) + i ==> Le16(img, at) == if i + 1 < lens[k] then c + 1 else 0xFFFF)
            && (c >= 2 + Sum(lens, |lens|) ==> Le16(img, at) == 0)
  {
    LinkIs(lens, c, k, i, Le16(img, FatOffset(g, copy, c)));
  }
}
