/** Assembling a FAT16 image: geometry check, the two passes, and the copies of directories and
    FATs into the image, which then holds the files (`FatFormat.Holds`). */
module FatImage {
  import opened Words
  import opened FatGeometry
  import opened FatTree
  import opened FatFormat
  import opened FatWriter
  import opened FatBuilder

  predicate Outside(k: int, from: int, to: int) { k < from || to <= k }

  // ---- directories ----

  ghost predicate ZeroIn(img: Bytes, from: nat, to: nat) { forall k :: from <= k < to && k < |img| ==> img[k] == 0 }

  lemma {:induction false} StoredFromBytes(img: Bytes, off: nat, slots: seq<Slot>, room: nat)
    requires forall k :: 0 <= k < |slots| ==> SlotOk(slots[k])
    requires off + room <= |img| && 32 * |slots| <= room
    requires At(img, off, Encode(slots))
    requires ZeroIn(img, off + 32 * |slots|, off + room)
    ensures DirStored(img, off, slots, room)
  {
    EncodeLength(slots);
    forall k | 0 <= k < |slots|
      ensures At(img, off + 32 * k, SlotBytes(slots[k]))
    {
      EncodeAt(slots, k);
      AtWithin(img, off, Encode(slots), 32 * k, SlotBytes(slots[k]));
    }
  }

  lemma {:induction false} StoredKept(before: Bytes, after: Bytes, off: nat, slots: seq<Slot>, room: nat)
    requires |before| == |after| && DirStored(before, off, slots, room)
    requires forall k :: 0 <= k < |slots| ==> SlotOk(slots[k])
    requires forall k :: off <= k < off + room ==> after[k] == before[k]
    ensures DirStored(after, off, slots, room)
  {
    forall k | 0 <= k < |slots|
      ensures At(after, off + 32 * k, SlotBytes(slots[k]))
    {
      assert At(before, off + 32 * k, SlotBytes(slots[k]));
      assert after[off + 32 * k..off + 32 * k + 32] == before[off + 32 * k..off + 32 * k + 32];
    }
  }

  /** Directory `d` of the plan is stored in its extent. */
  ghost predicate SubDirStored(img: Bytes, g: Geometry, p: Plan, lens: seq<nat>, d: nat)
    requires Shaped(p, lens) && 0 < d < |p.tree|
  {
    && ItemsInRange(p.files, p.tree, p.items[d])
    && DirStored(img, ExtentOffset(g, lens, d - 1), SlotsIn(p, lens, d),
                 lens[d - 1] * (g.sectorsPerCluster * SECTOR_SIZE))
  }

  /** What the assembly starts from: directories filled in, each no bigger than its extent. */
  ghost predicate Ready(g: Geometry, p: Plan, lens: seq<nat>, dirs: seq<Dir>) {
    && Shaped(p, lens) && LaidOut(g) && ExtentsFit(g, lens)
    && DirsFilled(p.files, p.tree, p.spots, lens, dirs, p.items)
    && (forall d :: 0 < d < |p.tree| ==>
          32 * (DotEntries(d) + |p.items[d]|) <= lens[d - 1] * (g.sectorsPerCluster * SECTOR_SIZE))
    && 32 * |p.items[0]| <= g.rootSectors * SECTOR_SIZE
  }

  lemma {:induction false} FilledBytes(g: Geometry, p: Plan, lens: seq<nat>, dirs: seq<Dir>, d: nat)
    requires Ready(g, p, lens, dirs) && d < |p.tree|
    ensures d < |dirs| && ItemsInRange(p.files, p.tree, p.items[d])
    ensures dirs[d].entries == Encode(SlotsIn(p, lens, d))
    ensures dirs[d].cluster == DirCluster(p.tree, lens, d)
    ensures |dirs[d].entries| == 32 * (DotEntries(d) + |p.items[d]|)
    ensures forall k :: 0 <= k < |SlotsIn(p, lens, d)| ==> SlotOk(SlotsIn(p, lens, d)[k])
  {
    assert DirFilled(p.files, p.tree, p.spots, lens, dirs[d], d, p.items[d]);
    EncodeLength(SlotsIn(p, lens, d));
  }

  /** Copies a directory's entries to a zeroed place in the image. */
  method WriteSlots(image: array<byte>, off: nat, entries: Bytes, ghost slots: seq<Slot>, ghost room: nat)
    requires entries == Encode(slots) && forall k :: 0 <= k < |slots| ==> SlotOk(slots[k])
    requires |entries| <= room && off + room <= image.Length
    requires ZeroIn(image[..], off, off + room)
    modifies image
    ensures DirStored(image[..], off, slots, room)
    ensures forall k | 0 <= k < image.Length && Outside(k, off, off + room) :: image[k] == old(image[k])
  {
    EncodeLength(slots);
    CopyInto(image, off, entries);
    StoredFromBytes(image[..], off, slots, room);
  }

  lemma DirSpot(g: Geometry, lens: seq<nat>, d: nat, cluster: int)
    requires LaidOut(g) && ExtentsFit(g, lens) && 0 < d <= |lens| && cluster == Start(lens, d - 1)
    ensures cluster >= 2
    ensures (g.dataLba + (cluster - 2) * g.sectorsPerCluster) * SECTOR_SIZE == ExtentOffset(g, lens, d - 1)
    ensures ExtentOffset(g, lens, d - 1) + lens[d - 1] * (g.sectorsPerCluster * SECTOR_SIZE) == ExtentOffset(g, lens, d)
    ensures ExtentOffset(g, lens, d) <= g.totalSectors * SECTOR_SIZE
  {
    ExtentOffsets(g, lens, d - 1);
  }

  /** Copies one subdirectory's entries to its clusters. */
  method WriteDir(image: array<byte>, g: Geometry, dir: Dir, ghost p: Plan, ghost lens: seq<nat>, ghost dirs: seq<Dir>,
                  ghost d: nat)
    requires Ready(g, p, lens, dirs) && 0 < d < |p.tree| && d < |dirs| && dir == dirs[d]
    requires image.Length == g.totalSectors * SECTOR_SIZE
    requires ZeroIn(image[..], ExtentOffset(g, lens, d - 1), ExtentOffset(g, lens, d))
    modifies image
    ensures SubDirStored(image[..], g, p, lens, d)
    ensures forall k | 0 <= k < image.Length && !InsideExtent(g, lens, d - 1, k) :: image[k] == old(image[k])
  {
    FilledBytes(g, p, lens, dirs, d);
    var cluster: int := dir.cluster;
    DirSpot(g, lens, d, cluster);
    var lba := g.dataLba + (cluster - 2) * g.sectorsPerCluster;
    WriteSlots(image, lba * SECTOR_SIZE, dir.entries, SlotsIn(p, lens, d),
               lens[d - 1] * (g.sectorsPerCluster * SECTOR_SIZE));
  }

  lemma {:induction false} EarlierDirsKept(before: Bytes, after: Bytes, g: Geometry, p: Plan, lens: seq<nat>, d: nat)
    requires Shaped(p, lens) && LaidOut(g) && ExtentsFit(g, lens) && 0 < d < |p.tree|
    requires |before| == |after| == g.totalSectors * SECTOR_SIZE
    requires forall e :: 0 < e < d ==> SubDirStored(before, g, p, lens, e)
    requires forall k | 0 <= k < |before| && !InsideExtent(g, lens, d - 1, k) :: after[k] == before[k]
    ensures forall e :: 0 < e < d ==> SubDirStored(after, g, p, lens, e)
  {
    forall e | 0 < e < d
      ensures SubDirStored(after, g, p, lens, e)
    {
      assert SubDirStored(before, g, p, lens, e);
      ExtentOffsets(g, lens, e - 1);
      ExtentsInOrder(g, lens, e, d - 1);
      var off, room := ExtentOffset(g, lens, e - 1), lens[e - 1] * (g.sectorsPerCluster * SECTOR_SIZE);
      forall k | off <= k < off + room
        ensures after[k] == before[k]
      {
        assert !InsideExtent(g, lens, d - 1, k);
      }
      StoredKept(before, after, off, SlotsIn(p, lens, e), room);
    }
  }

  /** The first `d - 1` subdirectories are stored; the extents of the others are still zero. */
  ghost predicate DirsStoredTo(img: Bytes, g: Geometry, p: Plan, lens: seq<nat>, d: nat)
    requires Shaped(p, lens) && 0 < d <= |p.tree|
  {
    && (forall e :: 0 < e < d ==> SubDirStored(img, g, p, lens, e))
    && ZeroIn(img, ExtentOffset(g, lens, d - 1), ExtentOffset(g, lens, |p.tree| - 1))
  }

  method WriteNextDir(image: array<byte>, g: Geometry, dir: Dir, ghost p: Plan, ghost lens: seq<nat>,
                      ghost dirs: seq<Dir>, ghost d: nat)
    requires Ready(g, p, lens, dirs) && 0 < d < |p.tree| && d < |dirs| && dir == dirs[d]
    requires image.Length == g.totalSectors * SECTOR_SIZE
    requires DirsStoredTo(image[..], g, p, lens, d)
    modifies image
    ensures DirsStoredTo(image[..], g, p, lens, d + 1)
    ensures forall k | 0 <= k < image.Length
                   && Outside(k, ExtentOffset(g, lens, 0), ExtentOffset(g, lens, |p.tree| - 1)) ::
              image[k] == old(image[k])
  {
    ghost var before := image[..];
    ExtentsInOrder(g, lens, d, |p.tree| - 1);
    WriteDir(image, g, dir, p, lens, dirs, d);
    NextDirStored(before, image[..], g, p, lens, d);
  }

  lemma {:induction false} NextDirStored(before: Bytes, after: Bytes, g: Geometry, p: Plan, lens: seq<nat>, d: nat)
    requires Shaped(p, lens) && LaidOut(g) && ExtentsFit(g, lens) && 0 < d < |p.tree|
    requires |before| == |after| == g.totalSectors * SECTOR_SIZE
    requires DirsStoredTo(before, g, p, lens, d) && SubDirStored(after, g, p, lens, d)
    requires forall k | 0 <= k < |before| && !InsideExtent(g, lens, d - 1, k) :: after[k] == before[k]
    ensures DirsStoredTo(after, g, p, lens, d + 1)
    ensures forall k | 0 <= k < |before| && Outside(k, ExtentOffset(g, lens, 0), ExtentOffset(g, lens, |p.tree| - 1)) ::
              after[k] == before[k]
  {
    ExtentsInOrder(g, lens, 0, d - 1);
    ExtentsInOrder(g, lens, d - 1, d);
    ExtentsInOrder(g, lens, d, |p.tree| - 1);
    EarlierDirsKept(before, after, g, p, lens, d);
    ZeroKept(before, after, g, p, lens, d);
  }

  /** Writing in extent `d - 1` leaves the bytes outside the subdirectories' extents, and the zeros
      of the extents after it. */
  lemma ZeroKept(before: Bytes, after: Bytes, g: Geometry, p: Plan, lens: seq<nat>, d: nat)
    requires Shaped(p, lens) && 0 < d < |p.tree| && |before| == |after|
    requires ExtentOffset(g, lens, 0) <= ExtentOffset(g, lens, d - 1) <= ExtentOffset(g, lens, d)
    requires ExtentOffset(g, lens, d) <= ExtentOffset(g, lens, |p.tree| - 1)
    requires ZeroIn(before, ExtentOffset(g, lens, d - 1), ExtentOffset(g, lens, |p.tree| - 1))
    requires forall k | 0 <= k < |before| && !InsideExtent(g, lens, d - 1, k) :: after[k] == before[k]
    ensures ZeroIn(after, ExtentOffset(g, lens, d), ExtentOffset(g, lens, |p.tree| - 1))
    ensures forall k | 0 <= k < |before| && Outside(k, ExtentOffset(g, lens, 0), ExtentOffset(g, lens, |p.tree| - 1)) ::
              after[k] == before[k]
  {
  }

  /** Copies all subdirectories' entries to their clusters. */
  method WriteDirs(image: array<byte>, g: Geometry, dirs: seq<Dir>, ghost p: Plan, ghost lens: seq<nat>)
    requires Ready(g, p, lens, dirs)
    requires image.Length == g.totalSectors * SECTOR_SIZE
    requires ZeroIn(image[..], ExtentOffset(g, lens, 0), ExtentOffset(g, lens, |p.tree| - 1))
    modifies image
    ensures DirsStoredTo(image[..], g, p, lens, |p.tree|)
    ensures forall k | 0 <= k < image.Length
                   && Outside(k, ExtentOffset(g, lens, 0), ExtentOffset(g, lens, |p.tree| - 1)) ::
              image[k] == old(image[k])
  {
    for d := 1 to |dirs|
      invariant DirsStoredTo(image[..], g, p, lens, d)
      invariant forall k | 0 <= k < image.Length
                       && Outside(k, ExtentOffset(g, lens, 0), ExtentOffset(g, lens, |p.tree| - 1)) ::
                  image[k] == old(image[k])
    {
      WriteNextDir(image, g, dirs[d], p, lens, dirs, d);
    }
  }

  // ---- the FAT copies and the root directory ----

  lemma FatRegion(g: Geometry, copy: nat)
    requires LaidOut(g) && copy < g.numFats
    ensures g.reserved * SECTOR_SIZE <= FatOffset(g, copy, 0)
    ensures FatOffset(g, copy, 0) + g.sectorsPerFat * SECTOR_SIZE
            == FatOffset(g, copy + 1, 0) <= g.rootLba * SECTOR_SIZE
  {
    MulMono(0, copy, g.sectorsPerFat);
    MulDist(copy, 1, g.sectorsPerFat);
    MulMono(copy + 1, g.numFats, g.sectorsPerFat);
  }

  /** FAT copy `copy` in the image is the FAT. */
  ghost predicate FatCopied(img: Bytes, g: Geometry, fat: Bytes, copy: nat) { At(img, FatOffset(g, copy, 0), fat) }

  method WriteFats(image: array<byte>, g: Geometry, fat: array<byte>)
    requires LaidOut(g) && image != fat
    requires image.Length == g.totalSectors * SECTOR_SIZE && fat.Length == g.sectorsPerFat * SECTOR_SIZE
    modifies image
    ensures FatsCopied(image[..], g, fat[..], g.numFats)
    ensures forall k | 0 <= k < image.Length && Outside(k, g.reserved * SECTOR_SIZE, g.rootLba * SECTOR_SIZE) ::
              image[k] == old(image[k])
  {
    for copy := 0 to g.numFats
      invariant FatsCopied(image[..], g, fat[..], copy)
      invariant forall k | 0 <= k < image.Length && Outside(k, g.reserved * SECTOR_SIZE, g.rootLba * SECTOR_SIZE) ::
                  image[k] == old(image[k])
    {
      ghost var before := image[..];
      FatRegion(g, copy);
      CopyInto(image, (g.fatLba + copy * g.sectorsPerFat) * SECTOR_SIZE, fat[..]);
      EarlierFatsKept(before, image[..], g, fat[..], copy);
    }
  }

  /** The first `n` FAT copies are the FAT. */
  ghost predicate FatsCopied(img: Bytes, g: Geometry, fat: Bytes, n: nat) {
    forall copy :: 0 <= copy < n ==> FatCopied(img, g, fat, copy)
  }

  lemma EarlierFatsKept(before: Bytes, after: Bytes, g: Geometry, fat: Bytes, copy: nat)
    requires LaidOut(g) && copy < g.numFats && |before| == |after| && |fat| == g.sectorsPerFat * SECTOR_SIZE
    requires FatsCopied(before, g, fat, copy) && FatCopied(after, g, fat, copy)
    requires forall k :: 0 <= k < |before| && !(FatOffset(g, copy, 0) <= k < FatOffset(g, copy, 0) + |fat|) ==>
                           after[k] == before[k]
    ensures FatsCopied(after, g, fat, copy + 1)
  {
    forall c | 0 <= c < copy
      ensures FatCopied(after, g, fat, c)
    {
      assert FatCopied(before, g, fat, c);
      FatRegion(g, c);
      FatOrder(g, c + 1, copy);
      AtOutside(before, after, FatOffset(g, c, 0), fat, FatOffset(g, copy, 0), FatOffset(g, copy, 0) + |fat|);
    }
  }

  lemma FatOrder(g: Geometry, a: nat, b: nat)
    requires a <= b
    ensures FatOffset(g, a, 0) <= FatOffset(g, b, 0)
  {
    MulMono(a, b, g.sectorsPerFat);
  }

  /** The bytes of a FAT hold the links of all extents. */
  ghost predicate LinksIn(fat: Bytes, lens: seq<nat>) {
    forall c: nat :: 2 * c + 2 <= |fat| ==> LinkOk(lens, c, LinkAt(fat, c))
  }

  ghost function LinkAt(fat: Bytes, c: nat): int
    requires 2 * c + 2 <= |fat|
  {
    Le16(fat, 2 * c)
  }

  lemma LinksOfArray(fat: array<byte>, lens: seq<nat>)
    requires LinksUpTo(fat, lens, |lens|)
    ensures LinksIn(fat[..], lens)
  {
    forall c: nat | 2 * c + 2 <= fat.Length
      ensures LinkOk(lens, c, LinkAt(fat[..], c))
    {
      assert LinkOkTo(lens, |lens|, c, Link(fat, c));
    }
  }

  lemma CopyHasLinks(img: Bytes, g: Geometry, fat: Bytes, lens: seq<nat>, copy: nat)
    requires |fat| == g.sectorsPerFat * SECTOR_SIZE && FatCopied(img, g, fat, copy)
    requires LinksIn(fat, lens)
    ensures FatCopyOk(img, g, lens, copy)
  {
    var off := FatOffset(g, copy, 0);
    forall c | 0 <= c < 256 * g.sectorsPerFat
      ensures FatOffset(g, copy, c) + 2 <= |img| && LinkOk(lens, c, Le16(img, FatOffset(g, copy, c)))
    {
      assert LinkOk(lens, c, LinkAt(fat, c));
      assert img[off + 2 * c] == img[off..off + |fat|][2 * c] == fat[2 * c];
      assert img[off + 2 * c + 1] == img[off..off + |fat|][2 * c + 1] == fat[2 * c + 1];
    }
  }

  /** Copies the root directory, padded with zeros, to its sectors. */
  method WriteRoot(image: array<byte>, g: Geometry, dirs: seq<Dir>, ghost p: Plan, ghost lens: seq<nat>)
    requires Ready(g, p, lens, dirs)
    requires image.Length == g.totalSectors * SECTOR_SIZE
    modifies image
    ensures ItemsInRange(p.files, p.tree, p.items[0])
    ensures DirStored(image[..], g.rootLba * SECTOR_SIZE, SlotsIn(p, lens, 0), g.rootSectors * SECTOR_SIZE)
    ensures forall k | 0 <= k < image.Length && Outside(k, g.rootLba * SECTOR_SIZE, g.dataLba * SECTOR_SIZE) ::
              image[k] == old(image[k])
  {
    FilledBytes(g, p, lens, dirs, 0);
    var room := g.rootSectors * SECTOR_SIZE;
    var rootDir := dirs[0].entries + Zeros(room - |dirs[0].entries|);
    CopyInto(image, g.rootLba * SECTOR_SIZE, rootDir);
    RootStored(image[..], g.rootLba * SECTOR_SIZE, dirs[0].entries, room, SlotsIn(p, lens, 0));
  }

  lemma {:induction false} RootStored(img: Bytes, off: nat, entries: Bytes, room: nat, slots: seq<Slot>)
    requires forall k :: 0 <= k < |slots| ==> SlotOk(slots[k])
    requires entries == Encode(slots) && |entries| <= room
    requires At(img, off, entries + Zeros(room - |entries|))
    ensures DirStored(img, off, slots, room)
  {
    EncodeLength(slots);
    var pad := Zeros(room - |entries|);
    AtWithin(img, off, entries + pad, 0, entries);
    AtWithin(img, off, entries + pad, |entries|, pad);
    var zeros := off + |entries|;
    assert img[zeros..zeros + |pad|] == pad;
    forall k | zeros <= k < off + room
      ensures img[k] == 0
    {
      assert img[k] == img[zeros..zeros + |pad|][k - zeros];
    }
    StoredFromBytes(img, off, slots, room);
  }

  // ---- the whole image ----

  lemma PayloadFits(payload: nat)
    requires 1 + CeilDiv(payload, SECTOR_SIZE) <= 0xFFFF
    ensures 0 < ReservedSectors(payload) && SECTOR_SIZE + payload <= ReservedSectors(payload) * SECTOR_SIZE
  {
    CeilDivBounds(payload, SECTOR_SIZE);
  }

  lemma AcceptedIsLaidOut(payload: nat, totalSectors: u32, spc: byte, rootEntries: u16, numFats: byte)
    requires spc > 0 && Accepted(Compute(payload, totalSectors, spc, rootEntries, numFats))
    requires ReservedSectors(payload) > 0
    ensures LaidOut(Compute(payload, totalSectors, spc, rootEntries, numFats))
  {
    AcceptedIsExact(payload, totalSectors, spc, rootEntries, numFats);
    AcceptedClusters(payload, totalSectors, spc, rootEntries, numFats);
  }

  /** The parts of the image outside the directories and FATs: boot sector, payload, file contents. */
  ghost predicate PartsStored(img: Bytes, g: Geometry, payload: Bytes, t: Tree, lens: seq<nat>, files: seq<File>)
    requires |t| > 0 && |lens| == |t| - 1 + |files|
  {
    && BootSectorOk(img, g)
    && At(img, SECTOR_SIZE, payload)
    && forall i :: 0 <= i < |files| ==> FileStored(img, g, t, lens, files, i)
  }

  /** They stay as they are when only the bytes between the payload and the files change. */
  lemma PartsKept(before: Bytes, after: Bytes, g: Geometry, payload: Bytes, t: Tree, lens: seq<nat>, files: seq<File>)
    requires LaidOut(g) && ExtentsFit(g, lens) && |t| > 0 && |lens| == |t| - 1 + |files|
    requires SECTOR_SIZE + |payload| <= g.reserved * SECTOR_SIZE
    requires |before| == |after| && PartsStored(before, g, payload, t, lens, files)
    requires forall k | 0 <= k < |before| && Outside(k, g.reserved * SECTOR_SIZE, ExtentOffset(g, lens, |t| - 1)) ::
               after[k] == before[k]
    ensures PartsStored(after, g, payload, t, lens, files)
  {
    AtOutside(before, after, SECTOR_SIZE, payload, g.reserved * SECTOR_SIZE, ExtentOffset(g, lens, |t| - 1));
    forall k | 0 <= k < SECTOR_SIZE
      ensures after[k] == before[k]
    {
      assert Outside(k, g.reserved * SECTOR_SIZE, ExtentOffset(g, lens, |t| - 1));
    }
    BootKept(before, after, g);
    forall i | 0 <= i < |files|
      ensures FileStored(after, g, t, lens, files, i)
    {
      assert FileStored(before, g, t, lens, files, i);
      ExtentsInOrder(g, lens, |t| - 1, |t| - 1 + i);
      AtOutside(before, after, ExtentOffset(g, lens, |t| - 1 + i), files[i].data, g.reserved * SECTOR_SIZE,
                ExtentOffset(g, lens, |t| - 1));
    }
  }

  lemma {:induction false} SubDirsKept(before: Bytes, after: Bytes, g: Geometry, p: Plan, lens: seq<nat>)
    requires Shaped(p, lens) && LaidOut(g) && ExtentsFit(g, lens)
    requires |before| == |after|
    requires forall d :: 0 < d < |p.tree| ==> SubDirStored(before, g, p, lens, d)
    requires forall k :: g.dataLba * SECTOR_SIZE <= k < |before| ==> after[k] == before[k]
    ensures forall d :: 0 < d < |p.tree| ==> SubDirStored(after, g, p, lens, d)
  {
    forall d | 0 < d < |p.tree|
      ensures SubDirStored(after, g, p, lens, d)
    {
      assert SubDirStored(before, g, p, lens, d);
      ExtentOffsets(g, lens, d - 1);
      StoredKept(before, after, ExtentOffset(g, lens, d - 1), SlotsIn(p, lens, d),
                 lens[d - 1] * (g.sectorsPerCluster * SECTOR_SIZE));
    }
  }

  lemma RegionsInOrder(g: Geometry, lens: seq<nat>, n: nat)
    requires LaidOut(g) && n <= |lens|
    ensures g.reserved * SECTOR_SIZE <= g.rootLba * SECTOR_SIZE <= g.dataLba * SECTOR_SIZE == ExtentOffset(g, lens, 0)
    ensures ExtentOffset(g, lens, 0) <= ExtentOffset(g, lens, n)
  {
    MulMono(0, g.sectorsPerFat, g.numFats);
    ExtentsInOrder(g, lens, 0, n);
  }

  /** Everything but the FAT copies and the root directory is in the image. */
  ghost predicate DataStored(img: Bytes, g: Geometry, payload: Bytes, p: Plan, lens: seq<nat>)
    requires Shaped(p, lens)
  {
    && PartsStored(img, g, payload, p.tree, lens, p.files)
    && forall d :: 0 < d < |p.tree| ==> SubDirStored(img, g, p, lens, d)
  }

  lemma DataKept(before: Bytes, after: Bytes, g: Geometry, payload: Bytes, p: Plan, lens: seq<nat>)
    requires Shaped(p, lens) && LaidOut(g) && ExtentsFit(g, lens)
    requires SECTOR_SIZE + |payload| <= g.reserved * SECTOR_SIZE
    requires |before| == |after| && DataStored(before, g, payload, p, lens)
    requires forall k | 0 <= k < |before| && Outside(k, g.reserved * SECTOR_SIZE, g.dataLba * SECTOR_SIZE) ::
               after[k] == before[k]
    ensures DataStored(after, g, payload, p, lens)
  {
    RegionsInOrder(g, lens, |p.tree| - 1);
    PartsKept(before, after, g, payload, p.tree, lens, p.files);
    SubDirsKept(before, after, g, p, lens);
  }

  /** The last step: subdirectories, FAT copies and the root directory go into the image. */
  method Assemble(image: array<byte>, fat: array<byte>, g: Geometry, dirs: seq<Dir>, ghost payload: Bytes,
                  ghost p: Plan, ghost lens: seq<nat>)
    requires image != fat && Ready(g, p, lens, dirs)
    requires image.Length == g.totalSectors * SECTOR_SIZE && fat.Length == g.sectorsPerFat * SECTOR_SIZE
    requires SECTOR_SIZE + |payload| <= g.reserved * SECTOR_SIZE
    requires ZeroIn(image[..], ExtentOffset(g, lens, 0), ExtentOffset(g, lens, |p.tree| - 1))
    requires PartsStored(image[..], g, payload, p.tree, lens, p.files)
    modifies image
    ensures DataStored(image[..], g, payload, p, lens)
    ensures FatsCopied(image[..], g, fat[..], g.numFats)
    ensures ItemsInRange(p.files, p.tree, p.items[0])
    ensures DirStored(image[..], g.rootLba * SECTOR_SIZE, SlotsIn(p, lens, 0), g.rootSectors * SECTOR_SIZE)
  {
    RegionsInOrder(g, lens, |p.tree| - 1);
    ghost var img0 := image[..];
    WriteDirs(image, g, dirs, p, lens);
    ghost var img1 := image[..];
    PartsKept(img0, img1, g, payload, p.tree, lens, p.files);
    AssembleSystem(image, fat, g, dirs, payload, p, lens);
  }

  method AssembleSystem(image: array<byte>, fat: array<byte>, g: Geometry, dirs: seq<Dir>, ghost payload: Bytes,
                        ghost p: Plan, ghost lens: seq<nat>)
    requires image != fat && Ready(g, p, lens, dirs)
    requires image.Length == g.totalSectors * SECTOR_SIZE && fat.Length == g.sectorsPerFat * SECTOR_SIZE
    requires SECTOR_SIZE + |payload| <= g.reserved * SECTOR_SIZE
    requires DataStored(image[..], g, payload, p, lens)
    modifies image
    ensures DataStored(image[..], g, payload, p, lens)
    ensures FatsCopied(image[..], g, fat[..], g.numFats)
    ensures ItemsInRange(p.files, p.tree, p.items[0])
    ensures DirStored(image[..], g.rootLba * SECTOR_SIZE, SlotsIn(p, lens, 0), g.rootSectors * SECTOR_SIZE)
  {
    RegionsInOrder(g, lens, 0);
    ghost var img1 := image[..];
    WriteFats(image, g, fat);
    ghost var img2 := image[..];
    DataKept(img1, img2, g, payload, p, lens);
    WriteRoot(image, g, dirs, p, lens);
    DataKept(img2, image[..], g, payload, p, lens);
    FatsKept(img2, image[..], g, fat[..]);
  }

  lemma FatsKept(before: Bytes, after: Bytes, g: Geometry, fat: Bytes)
    requires LaidOut(g) && |before| == |after| && |fat| == g.sectorsPerFat * SECTOR_SIZE
    requires FatsCopied(before, g, fat, g.numFats)
    requires forall k | 0 <= k < |before| && Outside(k, g.rootLba * SECTOR_SIZE, g.dataLba * SECTOR_SIZE) ::
               after[k] == before[k]
    ensures FatsCopied(after, g, fat, g.numFats)
  {
    forall copy | 0 <= copy < g.numFats
      ensures FatCopied(after, g, fat, copy)
    {
      assert FatCopied(before, g, fat, copy);
      FatRegion(g, copy);
      AtOutside(before, after, FatOffset(g, copy, 0), fat, g.rootLba * SECTOR_SIZE, g.dataLba * SECTOR_SIZE);
    }
  }

  /** The clusters all directories but the root and all files take. */
  method CountClusters(counts: seq<nat>, files: seq<File>, spc: nat, ghost t: Tree, ghost lens: seq<nat>)
    returns (n: nat)
    requires spc > 0 && |t| > 0 && |counts| == |t| && |lens| == |t| - 1 + |files|
    requires forall d :: 0 < d < |t| ==> lens[d - 1] == CeilDiv(counts[d] * 32, spc * SECTOR_SIZE)
    requires forall i :: 0 <= i < |files| ==> lens[|t| - 1 + i] == CeilDiv(|files[i].data|, spc * SECTOR_SIZE)
    ensures n == Sum(lens, |lens|)
  {
    n := 0;
    for d := 1 to |counts|
      invariant n == Sum(lens, d - 1)
    {
      n := n + CeilDiv(counts[d] * 32, spc * SECTOR_SIZE);
    }
    for i := 0 to |files|
      invariant n == Sum(lens, |t| - 1 + i)
    {
      n := n + CeilDiv(|files[i].data|, spc * SECTOR_SIZE);
    }
  }

  /** Extents of a list of files on a volume. */
  function ExtentsFor(files: seq<File>, spc: nat): seq<nat>
    requires spc > 0
  {
    PlaceAllOk(files);
    Extents(PlaceAll(files).0, PlaceAll(files).1, files, spc)
  }

  function RootCount(files: seq<File>): nat { EntryCount(PlaceAll(files).0, PlaceAll(files).1, 0) }

  /** When the clusters are enough for the files, so are the FAT's entries. */
  predicate FatHasRoom(g: Geometry, files: seq<File>)
    requires g.sectorsPerCluster > 0
  {
    var lens := ExtentsFor(files, g.sectorsPerCluster);
    Sum(lens, |lens|) <= g.clusters ==> Start(lens, |lens|) <= 256 * g.sectorsPerFat
  }

  /** The clusters planned for a directory hold its entries. */
  lemma {:induction false} DirFits(p: Plan, spc: nat, d: nat)
    requires spc > 0 && Listed(p) && 0 < d < |p.tree|
    ensures 32 * (DotEntries(d) + |p.items[d]|)
         <= Extents(p.tree, p.spots, p.files, spc)[d - 1] * (spc * SECTOR_SIZE)
  {
    EntriesCounted(p.tree, p.spots, d, p.items[d]);
    CeilDivBounds(EntryCount(p.tree, p.spots, d) * 32, spc * SECTOR_SIZE);
  }

  lemma {:induction false} DirsFit(p: Plan, spc: nat)
    requires spc > 0 && Listed(p)
    ensures var lens := Extents(p.tree, p.spots, p.files, spc);
            forall d :: 0 < d < |p.tree| ==> 32 * (DotEntries(d) + |p.items[d]|) <= lens[d - 1] * (spc * SECTOR_SIZE)
  {
    forall d | 0 < d < |p.tree|
      ensures 32 * (DotEntries(d) + |p.items[d]|)
           <= Extents(p.tree, p.spots, p.files, spc)[d - 1] * (spc * SECTOR_SIZE)
    {
      DirFits(p, spc, d);
    }
  }

  lemma {:induction false} RootFits(p: Plan, entries: nat)
    requires Listed(p) && EntryCount(p.tree, p.spots, 0) <= entries
    ensures 32 * |p.items[0]| <= CeilDiv(entries * 32, SECTOR_SIZE) * SECTOR_SIZE
  {
    EntriesCounted(p.tree, p.spots, 0, p.items[0]);
    CeilDivBounds(entries * 32, SECTOR_SIZE);
  }

  lemma {:induction false} ListedSizes(g: Geometry, p: Plan, lens: seq<nat>, dirs: seq<Dir>)
    requires LaidOut(g) && Listed(p) && Shaped(p, lens) && ExtentsFit(g, lens)
    requires lens == Extents(p.tree, p.spots, p.files, g.sectorsPerCluster)
    requires DirsFilled(p.files, p.tree, p.spots, lens, dirs, p.items)
    requires EntryCount(p.tree, p.spots, 0) <= g.rootEntries
    ensures Ready(g, p, lens, dirs)
  {
    DirsFit(p, g.sectorsPerCluster);
    RootFits(p, g.rootEntries);
  }

  /** All entries of every directory stand in the order they are first named in. */
  ghost predicate EntriesInOrder(p: Plan) {
    && PlanComplete(p)
    && (forall i :: 0 <= i < |p.spots| ==> p.spots[i].dir < |p.tree|)
    && forall d :: 0 <= d < |p.tree| ==> InOrder(p.tree, p.spots, p.items[d], |p.files|)
  }

  /** The image is as the writer leaves it. */
  ghost predicate Written(img: Bytes, fat: Bytes, g: Geometry, payload: Bytes, p: Plan, lens: seq<nat>)
    requires Shaped(p, lens)
  {
    && DataStored(img, g, payload, p, lens)
    && FatsCopied(img, g, fat, g.numFats)
    && ItemsInRange(p.files, p.tree, p.items[0])
    && DirStored(img, g.rootLba * SECTOR_SIZE, SlotsIn(p, lens, 0), g.rootSectors * SECTOR_SIZE)
  }

  /** Directories with their clusters and dot entries, ready for the second pass. */
  method PrepareDirs(image: array<byte>, fat: array<byte>, g: Geometry, dirs0: seq<Dir>, counts: seq<nat>,
                     ghost files: seq<File>, ghost t: Tree, ghost spots: seq<Spot>, ghost lens: seq<nat>)
    returns (dirs: seq<Dir>, parent: seq<nat>, next: u16, ghost items: seq<seq<Item>>)
    requires image != fat && Sized(g, files, t, spots, lens) && fat.Length == g.sectorsPerFat * SECTOR_SIZE
    requires DirsPlanned(dirs0, t)
    requires |counts| == |t| && forall d :: 0 <= d < |t| ==> counts[d] == EntryCount(t, spots, d)
    requires LinksUpTo(fat, lens, 0)
    modifies fat
    ensures ParentsOf(t, parent)
    ensures PassState(files, t, spots, lens, dirs, seq(|t|, _ => false), items, 0)
    ensures StoreState(image, fat, g, t, lens, files, next, 0)
  {
    ExtentsOfDirs(g, files, t, spots, lens, counts);
    dirs, next := AllocateDirs(dirs0, counts, g.sectorsPerCluster, fat, t, lens);
    parent := Parents(dirs, t);
    dirs, items := AddDots(dirs, parent, t, spots, files, lens);
    PassBegins(files, t, spots, lens, dirs, items);
  }

  /** Both passes over the plan: clusters allocated, directories filled, contents stored. */
  method RunPasses(image: array<byte>, fat: array<byte>, g: Geometry, files: seq<File>, placed: seq<Spot>,
                   dirs0: seq<Dir>, counts: seq<nat>, ghost before: Bytes, ghost t: Tree, ghost lens: seq<nat>)
    returns (dirs: seq<Dir>, ghost items: seq<seq<Item>>, ghost linked: seq<bool>)
    requires image != fat && Sized(g, files, t, placed, lens)
    requires image.Length == g.totalSectors * SECTOR_SIZE && fat.Length == g.sectorsPerFat * SECTOR_SIZE
    requires DirsPlanned(dirs0, t)
    requires |counts| == |t| && forall d :: 0 <= d < |t| ==> counts[d] == EntryCount(t, placed, d)
    requires LinksUpTo(fat, lens, 0) && before == image[..]
    modifies image, fat
    ensures PassState(files, t, placed, lens, dirs, linked, items, |files|)
    ensures LinksIn(fat[..], lens) && ContentsStored(image[..], before, g, t, lens, files)
  {
    var parent, next;
    dirs, parent, next, items := PrepareDirs(image, fat, g, dirs0, counts, files, t, placed, lens);
    dirs, items, linked := SecondPass(image, fat, g, files, placed, dirs, parent, next, t, lens, items);
    LinksOfArray(fat, lens);
  }

  /** All files are stored, and nothing before their clusters has changed. */
  ghost predicate ContentsStored(img: Bytes, before: Bytes, g: Geometry, t: Tree, lens: seq<nat>, files: seq<File>)
    requires |t| > 0 && |lens| == |t| - 1 + |files|
  {
    && (forall i :: 0 <= i < |files| ==> FileStored(img, g, t, lens, files, i))
    && |img| == |before|
    && forall k :: 0 <= k < |img| && k < ExtentOffset(g, lens, |t| - 1) ==> img[k] == before[k]
  }

  /** Everything after the checks: clusters, directories, contents and the assembly. */
  method FillImage(image: array<byte>, fat: array<byte>, g: Geometry, files: seq<File>, placed: seq<Spot>,
                   dirs0: seq<Dir>, counts: seq<nat>, ghost payload: Bytes, ghost t: Tree, ghost lens: seq<nat>)
    returns (ghost p: Plan, ghost fatBytes: Bytes)
    requires image != fat && Sized(g, files, t, placed, lens) && PlanOk(files, t, placed)
    requires image.Length == g.totalSectors * SECTOR_SIZE && fat.Length == g.sectorsPerFat * SECTOR_SIZE
    requires DirsPlanned(dirs0, t)
    requires |counts| == |t| && forall d :: 0 <= d < |t| ==> counts[d] == EntryCount(t, placed, d)
    requires counts[0] <= g.rootEntries
    requires LinksUpTo(fat, lens, 0)
    requires Fresh(image[..], g, payload)
    modifies image, fat
    ensures p.files == files && p.tree == t && p.spots == placed
    ensures EntriesInOrder(p) && Shaped(p, lens)
    ensures |fatBytes| == g.sectorsPerFat * SECTOR_SIZE && LinksIn(fatBytes, lens)
    ensures Written(image[..], fatBytes, g, payload, p, lens)
  {
    ghost var before := image[..];
    ghost var items, linked;
    var dirs;
    dirs, items, linked := RunPasses(image, fat, g, files, placed, dirs0, counts, before, t, lens);
    fatBytes := fat[..];
    p := Plan(files, t, placed, items);
    PassEnds(files, t, placed, lens, dirs, linked, items);
    FinishImage(image, fat, g, dirs, before, payload, p, lens);
  }

  /** The image before any file is in it: boot sector and payload, then zeros. */
  ghost predicate Fresh(img: Bytes, g: Geometry, payload: Bytes) {
    && BootSectorOk(img, g) && At(img, SECTOR_SIZE, payload)
    && SECTOR_SIZE + |payload| <= g.reserved * SECTOR_SIZE
    && ZeroIn(img, g.reserved * SECTOR_SIZE, |img|)
  }

  method FinishImage(image: array<byte>, fat: array<byte>, g: Geometry, dirs: seq<Dir>,
                     ghost before: Bytes, ghost payload: Bytes, ghost p: Plan, ghost lens: seq<nat>)
    requires image != fat && Sized(g, p.files, p.tree, p.spots, lens) && Listed(p)
    requires image.Length == g.totalSectors * SECTOR_SIZE == |before| && fat.Length == g.sectorsPerFat * SECTOR_SIZE
    requires EntryCount(p.tree, p.spots, 0) <= g.rootEntries
    requires DirsFilled(p.files, p.tree, p.spots, lens, dirs, p.items)
    requires Fresh(before, g, payload) && ContentsStored(image[..], before, g, p.tree, lens, p.files)
    modifies image
    ensures Written(image[..], fat[..], g, payload, p, lens)
  {
    ListedSizes(g, p, lens, dirs);
    RegionsInOrder(g, lens, |p.tree| - 1);
    PartsAfterPass(before, image[..], g, payload, p.tree, lens, p.files);
    Assemble(image, fat, g, dirs, payload, p, lens);
  }

  lemma ExtentsOfDirs(g: Geometry, files: seq<File>, t: Tree, spots: seq<Spot>, lens: seq<nat>, counts: seq<nat>)
    requires Sized(g, files, t, spots, lens)
    requires |counts| == |t| && forall d :: 0 <= d < |t| ==> counts[d] == EntryCount(t, spots, d)
    ensures forall d :: 0 < d < |t| ==> lens[d - 1] == CeilDiv(counts[d] * 32, g.sectorsPerCluster * SECTOR_SIZE) > 0
    ensures forall i :: 0 <= i < |files| ==>
                          lens[|t| - 1 + i] == CeilDiv(|files[i].data|, g.sectorsPerCluster * SECTOR_SIZE)
    ensures Start(lens, |lens|) < WORD_16 && 2 * Start(lens, |lens|) <= g.sectorsPerFat * SECTOR_SIZE
  {
    forall d | 0 < d < |t|
      ensures lens[d - 1] == CeilDiv(counts[d] * 32, g.sectorsPerCluster * SECTOR_SIZE) > 0
    {
      ExtentOfDir(t, spots, files, g.sectorsPerCluster, d);
    }
  }

  lemma PassEnds(files: seq<File>, t: Tree, spots: seq<Spot>, lens: seq<nat>, dirs: seq<Dir>, linked: seq<bool>,
                 items: seq<seq<Item>>)
    requires PlanOk(files, t, spots) && |lens| == |t| - 1 + |files|
    requires forall i :: 0 <= i < |spots| ==> spots[i].dir < |t|
    requires PassState(files, t, spots, lens, dirs, linked, items, |files|)
    ensures EntriesInOrder(Plan(files, t, spots, items))
    ensures DirsFilled(files, t, spots, lens, dirs, items)
  {
    forall d | 0 <= d < |t|
      ensures ListsExactly(t, spots, d, items[d])
    {
      AllLinked(files, t, spots, linked, items, d);
    }
  }

  lemma PartsAfterPass(before: Bytes, after: Bytes, g: Geometry, payload: Bytes, t: Tree, lens: seq<nat>,
                       files: seq<File>)
    requires LaidOut(g) && |t| > 0 && |lens| == |t| - 1 + |files| && |before| == |after|
    requires Fresh(before, g, payload) && ContentsStored(after, before, g, t, lens, files)
    ensures PartsStored(after, g, payload, t, lens, files)
    ensures ZeroIn(after, ExtentOffset(g, lens, 0), ExtentOffset(g, lens, |t| - 1))
  {
    RegionsInOrder(g, lens, |t| - 1);
    AtOutside(before, after, SECTOR_SIZE, payload, ExtentOffset(g, lens, |t| - 1), |before|);
  }

  lemma {:induction false} WrittenDir(img: Bytes, fat: Bytes, g: Geometry, payload: Bytes, p: Plan, lens: seq<nat>,
                                      d: nat)
    requires Shaped(p, lens) && d < |p.tree| && Written(img, fat, g, payload, p, lens)
    ensures DirHeld(img, g, p, lens, d)
  {
    if d > 0 { assert SubDirStored(img, g, p, lens, d); }
  }

  lemma {:induction false} WrittenFile(img: Bytes, fat: Bytes, g: Geometry, payload: Bytes, p: Plan, lens: seq<nat>,
                                       i: nat)
    requires Shaped(p, lens) && i < |p.files| && Written(img, fat, g, payload, p, lens)
    ensures FileHeld(img, g, p, lens, i)
  {
    assert FileStored(img, g, p.tree, lens, p.files, i);
  }

  /** A written image stores its plan. */
  lemma {:induction false} WrittenIsStored(img: Bytes, fat: Bytes, g: Geometry, payload: Bytes, p: Plan, lens: seq<nat>)
    requires Shaped(p, lens) && PlanComplete(p) && LaidOut(g) && ExtentsFit(g, lens)
    requires lens == Extents(p.tree, p.spots, p.files, g.sectorsPerCluster)
    requires |img| == g.totalSectors * SECTOR_SIZE && |fat| == g.sectorsPerFat * SECTOR_SIZE
    requires LinksIn(fat, lens) && Written(img, fat, g, payload, p, lens)
    ensures Stored(img, g, p)
  {
    forall copy | 0 <= copy < g.numFats
      ensures FatCopyOk(img, g, lens, copy)
    {
      CopyHasLinks(img, g, fat, lens, copy);
    }
    forall d | 0 <= d < |p.tree|
      ensures DirHeld(img, g, p, lens, d)
    {
      WrittenDir(img, fat, g, payload, p, lens, d);
    }
    forall i | 0 <= i < |p.files|
      ensures FileHeld(img, g, p, lens, i)
    {
      WrittenFile(img, fat, g, payload, p, lens, i);
    }
  }

  /** The boot sector, the payload after it, and the two reserved FAT entries. */
  method BeginImage(image: array<byte>, fat: array<byte>, g: Geometry, payload: Bytes, ghost lens: seq<nat>)
    requires image != fat && FieldsFit(g)
    requires SECTOR_SIZE + |payload| <= g.reserved * SECTOR_SIZE <= image.Length && fat.Length >= 4
    requires forall k :: 0 <= k < image.Length ==> image[k] == 0
    requires forall k :: 0 <= k < fat.Length ==> fat[k] == 0
    modifies image, fat
    ensures Fresh(image[..], g, payload)
    ensures LinksUpTo(fat, lens, 0)
  {
    WriteBootSector(image, g);
    ghost var booted := image[..];
    CopyInto(image, SECTOR_SIZE, payload);
    BootKept(booted, image[..], g);
    InitFat(fat, image[0x15], lens);
  }

  lemma BootKept(before: Bytes, after: Bytes, g: Geometry)
    requires BootSectorOk(before, g) && |after| >= SECTOR_SIZE
    requires forall k :: 0 <= k < SECTOR_SIZE ==> after[k] == before[k]
    ensures BootSectorOk(after, g)
  {
  }

  lemma FatNotEmpty(g: Geometry, payload: nat, totalSectors: u32, spc: byte, rootEntries: u16, numFats: byte)
    requires spc > 0 && g == Compute(payload, totalSectors, spc, rootEntries, numFats) && Accepted(g)
    ensures g.sectorsPerFat > 0
  {
    AcceptedClusters(payload, totalSectors, spc, rootEntries, numFats);
  }

  /** The conditions on a geometry's numbers that the program has no check for: it divides by the
      sectors per cluster, keeps the reserved sectors in 16 bits, and writes FAT entries without
      looking whether the FAT has them. */
  predicate BuildSafe(payload: nat, files: seq<File>, totalSectors: u32, spc: byte, rootEntries: u16, numFats: byte) {
    && spc > 0
    && 1 + CeilDiv(payload, SECTOR_SIZE) <= 0xFFFF
    && var g := Compute(payload, totalSectors, spc, rootEntries, numFats);
       Accepted(g) && RootCount(files) <= rootEntries ==> FatHasRoom(g, files)
  }

  /** Builds a volume with the given files, or says why it cannot. A volume that is built holds
      the files, and holds them for the reader when it has a FAT and its root directory fills its
      sectors. */
  method BuildFat16Image(payload: Bytes, files: seq<File>, totalSectors: u32, spc: byte, rootEntries: u16,
                         numFats: byte)
    returns (r: BuildResult, image: array<byte>, ghost g: Geometry, ghost p: Plan)
    requires BuildSafe(|payload|, files, totalSectors, spc, rootEntries, numFats)
    ensures g == Compute(|payload|, totalSectors, spc, rootEntries, numFats)
    ensures r.BadClusterCount? <==> !Accepted(g)
    ensures r.RootTooSmall? <==> Accepted(g) && RootCount(files) > rootEntries
    ensures r.DoesNotFit? <==> Accepted(g) && RootCount(files) <= rootEntries
                               && var lens := ExtentsFor(files, spc); Sum(lens, |lens|) > g.clusters
    ensures r.Built? ==> p.files == files && (p.tree, p.spots) == PlaceAll(files) && EntriesInOrder(p)
    ensures r.Built? ==> image.Length == totalSectors * SECTOR_SIZE && At(image[..], SECTOR_SIZE, payload)
    ensures r.Built? ==> Stored(image[..], g, p)
    ensures r.Built? && numFats > 0 && rootEntries % 16 == 0 ==> Holds(image[..], g, p)
  {
    var geometry := Compute(|payload|, totalSectors, spc, rootEntries, numFats);
    g := geometry;
    image := new byte[0];
    p := Plan([], [ROOT], [], []);
    if geometry.clusters < MIN_CLUSTERS || geometry.clusters > MAX_CLUSTERS {
      return BadClusterCount(geometry.clusters), image, g, p;
    }
    PayloadFits(|payload|);
    AcceptedIsLaidOut(|payload|, totalSectors, spc, rootEntries, numFats);
    FatNotEmpty(geometry, |payload|, totalSectors, spc, rootEntries, numFats);
    r, image, p := BuildOn(geometry, payload, files);
  }

  /** The same once the geometry is accepted. */
  method BuildOn(g: Geometry, payload: Bytes, files: seq<File>)
    returns (r: BuildResult, image: array<byte>, ghost p: Plan)
    requires LaidOut(g) && g.sectorsPerFat > 0
    requires SECTOR_SIZE + |payload| <= g.reserved * SECTOR_SIZE
    requires RootCount(files) <= g.rootEntries ==> FatHasRoom(g, files)
    ensures !r.BadClusterCount?
    ensures r.RootTooSmall? <==> RootCount(files) > g.rootEntries
    ensures r.DoesNotFit? <==> RootCount(files) <= g.rootEntries
                               && var lens := ExtentsFor(files, g.sectorsPerCluster); Sum(lens, |lens|) > g.clusters
    ensures r.Built? ==> p.files == files && (p.tree, p.spots) == PlaceAll(files) && EntriesInOrder(p)
    ensures r.Built? ==> image.Length == g.totalSectors * SECTOR_SIZE && At(image[..], SECTOR_SIZE, payload)
    ensures r.Built? ==> Stored(image[..], g, p)
  {
    image := new byte[g.totalSectors * SECTOR_SIZE](_ => 0);
    var fat := new byte[g.sectorsPerFat * SECTOR_SIZE](_ => 0);
    ghost var lens := ExtentsFor(files, g.sectorsPerCluster);
    ReservedInside(g);
    BeginImage(image, fat, g, payload, lens);
    r, p := BuildInto(image, fat, g, payload, files, lens);
  }

  /** Plan, checks and contents, in an image with its boot sector and payload. */
  method BuildInto(image: array<byte>, fat: array<byte>, g: Geometry, ghost payload: Bytes, files: seq<File>,
                   ghost lens: seq<nat>)
    returns (r: BuildResult, ghost p: Plan)
    requires image != fat && LaidOut(g)
    requires RootCount(files) <= g.rootEntries ==> FatHasRoom(g, files)
    requires lens == ExtentsFor(files, g.sectorsPerCluster)
    requires image.Length == g.totalSectors * SECTOR_SIZE && fat.Length == g.sectorsPerFat * SECTOR_SIZE
    requires LinksUpTo(fat, lens, 0)
    requires Fresh(image[..], g, payload)
    modifies image, fat
    ensures !r.BadClusterCount?
    ensures r.RootTooSmall? <==> RootCount(files) > g.rootEntries
    ensures r.DoesNotFit? <==> RootCount(files) <= g.rootEntries && Sum(lens, |lens|) > g.clusters
    ensures r.Built? ==>
              && p.files == files && (p.tree, p.spots) == PlaceAll(files) && EntriesInOrder(p)
              && At(image[..], SECTOR_SIZE, payload)
    ensures r.Built? ==> Stored(image[..], g, p)
  {
    p := Plan([], [ROOT], [], []);
    ghost var t;
    var dirs, placed;
    dirs, placed, t := PlanTree(files);
    SpotsInTree(files, t, placed);
    var counts := CountEntries(dirs, placed, t);
    if counts[0] > g.rootEntries {
      return RootTooSmall(counts[0]), p;
    }
    ExtentsMatch(g, files, t, placed, counts, lens);
    var needed := CountClusters(counts, files, g.sectorsPerCluster, t, lens);
    if needed > g.clusters {
      return DoesNotFit, p;
    }
    p := BuildContents(image, fat, g, payload, files, placed, dirs, counts, t, lens);
    r := Built;
  }

  method BuildContents(image: array<byte>, fat: array<byte>, g: Geometry, ghost payload: Bytes, files: seq<File>,
                       placed: seq<Spot>, dirs: seq<Dir>, counts: seq<nat>, ghost t: Tree, ghost lens: seq<nat>)
    returns (ghost p: Plan)
    requires image != fat && Sized(g, files, t, placed, lens) && PlanOk(files, t, placed)
    requires image.Length == g.totalSectors * SECTOR_SIZE && fat.Length == g.sectorsPerFat * SECTOR_SIZE
    requires DirsPlanned(dirs, t)
    requires |counts| == |t| && forall d :: 0 <= d < |t| ==> counts[d] == EntryCount(t, placed, d)
    requires counts[0] <= g.rootEntries
    requires LinksUpTo(fat, lens, 0)
    requires Fresh(image[..], g, payload)
    modifies image, fat
    ensures p.files == files && p.tree == t && p.spots == placed && EntriesInOrder(p)
            && At(image[..], SECTOR_SIZE, payload)
    ensures Stored(image[..], g, p)
  {
    ghost var fatBytes;
    p, fatBytes := FillImage(image, fat, g, files, placed, dirs, counts, payload, t, lens);
    WrittenIsStored(image[..], fatBytes, g, payload, p, lens);
  }

  lemma ReservedInside(g: Geometry)
    requires LaidOut(g)
    ensures g.reserved * SECTOR_SIZE <= g.totalSectors * SECTOR_SIZE && FieldsFit(g)
  {
    MulMono(0, g.sectorsPerFat, g.numFats);
  }

  lemma SpotsInTree(files: seq<File>, t: Tree, spots: seq<Spot>)
    requires PlanOk(files, t, spots)
    ensures forall i :: 0 <= i < |spots| ==> spots[i].dir < |t|
  {
    forall i | 0 <= i < |spots|
      ensures spots[i].dir < |t|
    {
      assert SpotOk(files[i], t, spots[i]);
    }
  }

  lemma ExtentsMatch(g: Geometry, files: seq<File>, t: Tree, spots: seq<Spot>, counts: seq<nat>, lens: seq<nat>)
    requires LaidOut(g) && |t| > 0 && lens == Extents(t, spots, files, g.sectorsPerCluster)
    requires |counts| == |t| && forall d :: 0 <= d < |t| ==> counts[d] == EntryCount(t, spots, d)
    ensures forall d :: 0 < d < |t| ==> lens[d - 1] == CeilDiv(counts[d] * 32, g.sectorsPerCluster * SECTOR_SIZE)
    ensures forall i :: 0 <= i < |files| ==>
                          lens[|t| - 1 + i] == CeilDiv(|files[i].data|, g.sectorsPerCluster * SECTOR_SIZE)
  {
    forall d | 0 < d < |t|
      ensures lens[d - 1] == CeilDiv(counts[d] * 32, g.sectorsPerCluster * SECTOR_SIZE)
    {
      ExtentOfDir(t, spots, files, g.sectorsPerCluster, d);
    }
  }
}
