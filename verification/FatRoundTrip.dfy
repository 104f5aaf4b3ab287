/** The reader gives back what an image holds: every file is found by its path and read back
    whole, and the directories list exactly their entries. */
module FatRoundTrip {
  import opened Words
  import opened FatGeometry
  import opened FatNames
  import opened FatTree
  import opened FatFormat
  import opened FatReader

  function VolFor(g: Geometry): Volume {
    Volume(g.sectorsPerCluster, g.rootEntries, g.sectorsPerFat, g.fatLba, g.rootLba, g.dataLba, g.clusters)
  }

  function Lens(g: Geometry, p: Plan): seq<nat>
    requires g.sectorsPerCluster > 0 && |p.tree| > 0
  {
    Extents(p.tree, p.spots, p.files, g.sectorsPerCluster)
  }

  // ---- the boot sector ----

  lemma {:induction false} U16InRange(img: Bytes, off: nat)
    requires off + 2 <= |img|
    ensures U16At(img, off) == Le16(img, off)
  {
  }

  lemma {:induction false} U32InRange(img: Bytes, off: nat)
    requires off + 4 <= |img|
    ensures U32At(img, off) == Le32(img, off)
  {
  }

  /** The reader finds the geometry the volume was laid out with. */
  lemma {:induction false} GeometryReadBack(img: Bytes, g: Geometry)
    requires GeometryOk(g) && BootSectorOk(img, g)
    ensures Recognised(img) && img[13] != 0
    ensures VolumeOf(img) == VolFor(g)
  {
    U16InRange(img, 11);
    U16InRange(img, 14);
    U16InRange(img, 17);
    U16InRange(img, 19);
    U16InRange(img, 22);
    U32InRange(img, 32);
    RootFillsSectors(g.rootEntries);
    MulMono(0, g.sectorsPerFat, g.numFats);
    ToU32Shift(g.totalSectors - g.dataLba, 0);
  }

  // ---- chains ----

  lemma {:induction false} LinkReadBack(img: Bytes, g: Geometry, p: Plan, c: nat, copy: nat)
    requires Holds(img, g, p)
    requires c < 256 * g.sectorsPerFat && copy < g.numFats
    ensures LinkOk(Lens(g, p), c, FatEntry(img, VolFor(g), c, copy))
  {
    assert FatCopyOk(img, g, Lens(g, p), copy);
    U16InRange(img, FatOffset(g, copy, c));
  }

  lemma {:induction false} StartBounds(g: Geometry, lens: seq<nat>, k: nat)
    requires GeometryOk(g) && ExtentsFit(g, lens) && k <= |lens|
    ensures 2 <= Start(lens, k) <= Start(lens, |lens|) <= g.clusters + 2 <= 0xFFF6
    ensures k < |lens| ==> Start(lens, k + 1) == Start(lens, k) + lens[k] <= g.clusters + 2
  {
    SumMonotone(lens, k, |lens|);
    if k < |lens| { SumMonotone(lens, k + 1, |lens|); }
  }

  /** The reader's view of an allocation of extents: it sees the right link for each of their
      clusters, and they are no more than the volume has. */
  ghost predicate LinksSeen(img: Bytes, v: Volume, lens: seq<nat>) {
    && Start(lens, |lens|) <= v.clusters + 2 <= 0xFFF6
    && forall c :: 0 <= c < Start(lens, |lens|) ==> LinkOk(lens, c, FatEntry(img, v, c, 0))
  }

  lemma {:induction false} ExtentBounds(lens: seq<nat>, k: nat)
    requires k < |lens|
    ensures 2 <= Start(lens, k) <= Start(lens, k + 1) == Start(lens, k) + lens[k] <= Start(lens, |lens|)
  {
    SumMonotone(lens, k + 1, |lens|);
  }

  lemma {:induction false} LinksAreSeen(img: Bytes, g: Geometry, p: Plan)
    requires Holds(img, g, p)
    ensures LinksSeen(img, VolFor(g), Lens(g, p))
  {
    forall c | 0 <= c < Start(Lens(g, p), |Lens(g, p)|)
      ensures LinkOk(Lens(g, p), c, FatEntry(img, VolFor(g), c, 0))
    {
      LinkReadBack(img, g, p, c, 0);
    }
  }

  /** Following the links from anywhere in an extent leads through the rest of the extent. */
  lemma {:induction false} ChainOfExtent(img: Bytes, v: Volume, lens: seq<nat>, k: nat, c: nat, n: nat)
    requires LinksSeen(img, v, lens) && k < |lens|
    requires Start(lens, k) <= c < Start(lens, k + 1)
    requires n + (Start(lens, k + 1) - c) <= v.clusters + 1
    ensures ChainFrom(img, v, c, n) == Range(c, Start(lens, k + 1) - c)
    decreases Start(lens, k + 1) - c
  {
    ExtentBounds(lens, k);
    assert LinkOk(lens, c, FatEntry(img, v, c, 0));
    var next := FatEntry(img, v, c, 0);
    assert InExtent(lens, k, c);
    assert next == NextInExtent(lens, k, c);
    if c + 1 < Start(lens, k + 1) {
      ChainOfExtent(img, v, lens, k, c + 1, n + 1);
    } else {
      assert ChainFrom(img, v, next, n + 1) == [];
    }
  }

  lemma {:induction false} WholeExtent(img: Bytes, v: Volume, lens: seq<nat>, k: nat)
    requires LinksSeen(img, v, lens) && k < |lens| && lens[k] > 0
    ensures ChainFrom(img, v, Start(lens, k), 0) == Range(Start(lens, k), lens[k])
  {
    ExtentBounds(lens, k);
    ChainOfExtent(img, v, lens, k, Start(lens, k), 0);
  }

  lemma {:induction false} SectorsOfRun(v: Volume, c: nat, n: nat)
    requires c >= 2
    ensures SectorsOf(v, Range(c, n)) == Range(ClusterLba(v, c), n * v.secPerClus)
  {
    if n > 0 {
      SectorsOfRun(v, c, n - 1);
      assert Range(c, n)[..n - 1] == Range(c, n - 1);
      MulDist(n - 1, 1, v.secPerClus);
      MulDist(c - 2, n - 1, v.secPerClus);
      assert ClusterLba(v, c + n - 1) == ClusterLba(v, c) + (n - 1) * v.secPerClus;
    }
  }

  // ---- directories ----

  function Decoded(s: Slot): Entry
    requires SlotOk(s)
  {
    Entry(Dotted(s.field), s.attr, ToU16(s.cluster), ToU32(s.size))
  }

  /** What a reader makes of a run of slots, from number `k` on. */
  function DecodeAll(slots: seq<Slot>, k: nat): (r: seq<Entry>)
    requires k <= |slots|
    requires forall i :: 0 <= i < |slots| ==> SlotOk(slots[i])
    ensures |r| == |slots| - k
    ensures forall i :: 0 <= i < |r| ==> r[i] == Decoded(slots[k + i])
    decreases |slots| - k
  {
    if k == |slots| then [] else [Decoded(slots[k])] + DecodeAll(slots, k + 1)
  }

  predicate Live(s: Slot) { SlotOk(s) && s.field[0] != 0 && s.field[0] != 0xE5 && s.attr / 8 % 2 == 0 }

  lemma {:induction false} SlotReadBack(img: Bytes, off: nat, s: Slot)
    requires SlotOk(s) && At(img, off, SlotBytes(s))
    ensures ByteAt(img, off) == s.field[0] && ByteAt(img, off + 11) == s.attr
    ensures DecodeEntry(img, off) == Decoded(s)
  {
    var b := SlotBytes(s);
    assert forall i :: 0 <= i < 32 ==> img[off + i] == img[off..off + 32][i] == b[i];
    assert b[..11] == s.field;
    assert Field11(img, off) == s.field by {
      assert forall i :: 0 <= i < 11 ==> Field11(img, off)[i] == b[i] == b[..11][i];
    }
    assert b[26..28] == Le16Bytes(ToU16(s.cluster)) && b[28..32] == Le32Bytes(ToU32(s.size));
    U16InRange(img, off + 26);
    U32InRange(img, off + 28);
    assert Le16(img, off + 26) == ToU16(s.cluster) by {
      assert img[off + 26] == b[26] == b[26..28][0] && img[off + 27] == b[27] == b[26..28][1];
    }
    assert At(img, off + 28, Le32Bytes(ToU32(s.size)));
    Le32BytesReadBack(img, off + 28, ToU32(s.size));
  }

  lemma {:induction false} OffsetInRun(lba: nat, count: nat, k: nat)
    requires k < 16 * count
    ensures EntryOffset(Range(lba, count), k) == lba * SECTOR_SIZE + 32 * k
  {
  }

  /** Scanning a stored directory gives its entries, in order. */
  lemma {:induction false} ScanStored(img: Bytes, lba: nat, count: nat, slots: seq<Slot>, k: nat)
    requires DirStored(img, lba * SECTOR_SIZE, slots, count * SECTOR_SIZE)
    requires forall i :: 0 <= i < |slots| ==> SlotOk(slots[i]) && Live(slots[i])
    requires k <= |slots| <= 16 * count
    ensures Scan(img, Range(lba, count), k) == DecodeAll(slots, k)
    decreases |slots| - k
  {
    var off := lba * SECTOR_SIZE + 32 * k;
    if k < 16 * count { OffsetInRun(lba, count, k); }
    if k < |slots| {
      assert Live(slots[k]) && At(img, off, SlotBytes(slots[k]));
      SlotReadBack(img, off, slots[k]);
      ScanStored(img, lba, count, slots, k + 1);
    } else if k < 16 * count {
      assert img[off] == 0;
    }
  }

  lemma {:induction false} DotNamesReadBack()
    ensures Dotted(DotName(1)) == [DOT] && Dotted(DotName(2)) == [DOT, DOT]
    ensures DotName(1)[0] == DOT && DotName(2)[0] == DOT
  {
    TrimDots(1, 8);
    TrimDots(2, 8);
    TrimBlank(3);
    assert DotName(1)[..8] == Dots(1, 8) && DotName(2)[..8] == Dots(2, 8);
    assert DotName(1)[8..] == Dots(0, 3) && DotName(2)[8..] == Dots(0, 3);
  }

  function Dots(n: nat, width: nat): Bytes { seq<byte>(width, i => if i < n then DOT else SPACE) }

  lemma {:induction false} TrimDots(n: nat, width: nat)
    requires n <= width
    ensures TrimRight(Dots(n, width)) == Dots(n, n)
  {
    if n < width {
      assert Dots(n, width)[..width - 1] == Dots(n, width - 1);
      TrimDots(n, width - 1);
    }
  }

  lemma {:induction false} TrimBlank(width: nat)
    ensures TrimRight(Dots(0, width)) == []
  {
    TrimDots(0, width);
  }

  /** The conditions under which a volume's files can be told apart by their paths. */
  ghost predicate Readable(p: Plan) {
    && PlanComplete(p)
    && (forall i :: 0 <= i < |p.files| ==> ValidPath(p.files[i]) && |p.files[i].data| < WORD_32)
    && DistinctPaths(p.files)
  }

  /** An entry's name field shows the name of what the entry stands for. */
  lemma {:induction false} ItemNameReadBack(p: Plan, d: nat, x: Item)
    requires Readable(p) && Belongs(p.tree, p.spots, d, x)
    ensures var field := NameField(match x case SubDir(c) => p.tree[c].name case FileAt(i) => p.spots[i].leaf);
            && Dotted(field) == ItemName(p.tree, p.spots, x)
            && field[0] != 0 && field[0] != 0xE5 && ValidField(field)
            && Dotted(field) != [DOT] && Dotted(field) != [DOT, DOT]
  {
    match x
    case SubDir(c) =>
      DirectoryNamesValid(p.files, p.tree, p.spots, c);
      UpperRoundTrip(p.tree[c].name);
      ValidNameGivesValidField(p.tree[c].name);
    case FileAt(i) =>
      assert SpotOk(p.files[i], p.tree, p.spots[i]);
      assert ValidPath(p.files[i]);
      UpperRoundTrip(p.spots[i].leaf);
      ValidNameGivesValidField(p.spots[i].leaf);
  }

  function FieldOf(p: Plan, x: Item): Bytes
    requires if x.SubDir? then x.dir < |p.tree| else x.index < |p.spots|
  {
    match x
    case SubDir(c) => NameField(p.tree[c].name)
    case FileAt(i) => NameField(p.spots[i].leaf)
  }

  /** A name field that reads back as its item's name, and is no deleted, unused or dot entry. */
  predicate ReadsBack(p: Plan, x: Item) {
    && (if x.SubDir? then x.dir < |p.tree| else x.index < |p.spots|)
    && Dotted(FieldOf(p, x)) == ItemName(p.tree, p.spots, x)
    && FieldOf(p, x)[0] != 0 && FieldOf(p, x)[0] != 0xE5 && ValidField(FieldOf(p, x))
    && Dotted(FieldOf(p, x)) != [DOT] && Dotted(FieldOf(p, x)) != [DOT, DOT]
  }

  /** The names in a directory read back, and differ. */
  ghost predicate NamesOkIn(p: Plan, d: nat)
    requires d < |p.items|
  {
    && (forall k :: 0 <= k < |p.items[d]| ==> ReadsBack(p, p.items[d][k]))
    && (forall j, k :: 0 <= j < k < |p.items[d]| ==>
          (ReadsBack(p, p.items[d][j]) && ReadsBack(p, p.items[d][k]) ==>
             ItemName(p.tree, p.spots, p.items[d][j]) != ItemName(p.tree, p.spots, p.items[d][k])))
  }

  ghost predicate NamesOk(p: Plan) {
    Listed(p) && forall d :: 0 <= d < |p.items| ==> NamesOkIn(p, d)
  }

  lemma {:induction false} ReadableNames(p: Plan)
    requires Readable(p)
    ensures NamesOk(p)
  {
    forall d | 0 <= d < |p.items|
      ensures NamesOkIn(p, d)
    {
      forall k | 0 <= k < |p.items[d]|
        ensures ReadsBack(p, p.items[d][k])
      {
        ItemIsListed(p, d, k);
        ItemNameReadBack(p, d, p.items[d][k]);
      }
      forall j, k | 0 <= j < k < |p.items[d]|
        ensures ReadsBack(p, p.items[d][j]) && ReadsBack(p, p.items[d][k]) ==>
                  ItemName(p.tree, p.spots, p.items[d][j]) != ItemName(p.tree, p.spots, p.items[d][k])
      {
        NamesDiffer(p, d, j, k);
      }
    }
  }

  lemma {:induction false} NamesDiffer(p: Plan, d: nat, j: nat, k: nat)
    requires Readable(p) && d < |p.tree| && j < k < |p.items[d]|
    requires ReadsBack(p, p.items[d][j]) && ReadsBack(p, p.items[d][k])
    ensures ItemName(p.tree, p.spots, p.items[d][j]) != ItemName(p.tree, p.spots, p.items[d][k])
  {
    ItemIsListed(p, d, j);
    ItemIsListed(p, d, k);
    assert ListsExactly(p.tree, p.spots, d, p.items[d]);
    if ItemName(p.tree, p.spots, p.items[d][j]) == ItemName(p.tree, p.spots, p.items[d][k]) {
      EntryNamesDistinct(p.files, p.tree, p.spots, d, p.items[d][j], p.items[d][k]);
      assert false;
    }
  }

  lemma {:induction false} ItemIsListed(p: Plan, d: nat, k: nat)
    requires Listed(p) && d < |p.tree| && k < |p.items[d]|
    ensures Belongs(p.tree, p.spots, d, p.items[d][k])
  {
    assert ListsExactly(p.tree, p.spots, d, p.items[d]) && p.items[d][k] in p.items[d];
  }

  lemma {:induction false} ItemSlotLive(p: Plan, lens: seq<nat>, x: Item)
    requires Shaped(p, lens) && ReadsBack(p, x)
    ensures Live(ItemSlot(p.files, p.tree, p.spots, lens, x))
  {
    assert ItemSlot(p.files, p.tree, p.spots, lens, x).field == FieldOf(p, x);
  }

  lemma {:induction false} DotSlotLive(tree: Tree, lens: seq<nat>, d: nat, k: nat)
    requires TreeOk(tree) && d < |tree| && |lens| >= |tree| - 1 && k < DotEntries(d)
    ensures Live(DotSlots(tree, lens, d)[k])
  {
    DotNamesReadBack();
  }

  lemma {:induction false} SlotsLive(p: Plan, lens: seq<nat>, d: nat)
    requires NamesOk(p) && Shaped(p, lens) && d < |p.tree|
    ensures ItemsInRange(p.files, p.tree, p.items[d])
    ensures forall k :: 0 <= k < |SlotsIn(p, lens, d)| ==> Live(SlotsIn(p, lens, d)[k])
  {
    ItemsAreInRange(p, d);
    forall k | 0 <= k < |SlotsIn(p, lens, d)|
      ensures Live(SlotsIn(p, lens, d)[k])
    {
      SlotIsLive(p, lens, d, k);
    }
  }

  lemma {:induction false} SlotIsLive(p: Plan, lens: seq<nat>, d: nat, k: nat)
    requires NamesOk(p) && Shaped(p, lens) && d < |p.tree|
    requires ItemsInRange(p.files, p.tree, p.items[d])
    requires k < |SlotsIn(p, lens, d)|
    ensures Live(SlotsIn(p, lens, d)[k])
  {
    SlotAt(p, lens, d, k);
    if k < DotEntries(d) {
      DotSlotLive(p.tree, lens, d, k);
    } else {
      assert NamesOkIn(p, d) && ReadsBack(p, p.items[d][k - DotEntries(d)]);
      ItemSlotLive(p, lens, p.items[d][k - DotEntries(d)]);
    }
  }

  /** The slots of a directory, one by one. */
  lemma {:induction false} SlotAt(p: Plan, lens: seq<nat>, d: nat, k: nat)
    requires Shaped(p, lens) && d < |p.tree|
    requires ItemsInRange(p.files, p.tree, p.items[d])
    requires k < |SlotsIn(p, lens, d)|
    ensures SlotsIn(p, lens, d)[k] == if k < DotEntries(d) then DotSlots(p.tree, lens, d)[k]
                                      else ItemSlot(p.files, p.tree, p.spots, lens, p.items[d][k - DotEntries(d)])
  {
  }

  function DirLba(v: Volume, lens: seq<nat>, d: nat): nat
    requires d <= |lens|
  {
    if d == 0 then v.rootLba else ClusterLba(v, Start(lens, d - 1))
  }

  function DirSectorCount(v: Volume, lens: seq<nat>, d: nat): nat
    requires d <= |lens|
  {
    if d == 0 then v.rootEntries / 16 else lens[d - 1] * v.secPerClus
  }

  /** The reader's view of a directory: its slots, where the reader looks for them. */
  ghost predicate DirSeen(img: Bytes, v: Volume, p: Plan, lens: seq<nat>, d: nat)
    requires Shaped(p, lens) && d < |p.tree|
  {
    && ItemsInRange(p.files, p.tree, p.items[d])
    && (d > 0 ==> lens[d - 1] > 0)
    && DirStored(img, DirLba(v, lens, d) * SECTOR_SIZE, SlotsIn(p, lens, d), DirSectorCount(v, lens, d) * SECTOR_SIZE)
  }

  /** Everything the reader will look at is there. */
  ghost predicate Seen(img: Bytes, v: Volume, p: Plan, lens: seq<nat>)
    requires Shaped(p, lens)
  {
    && LinksSeen(img, v, lens)
    && forall d :: 0 <= d < |p.tree| ==> DirSeen(img, v, p, lens, d)
  }

  lemma {:induction false} DirIsSeen(img: Bytes, g: Geometry, p: Plan, lens: seq<nat>, d: nat)
    requires Shaped(p, lens) && d < |p.tree|
    requires g.rootSectors == g.rootEntries / 16
    requires d > 0 ==> lens[d - 1] > 0
    requires DirHeld(img, g, p, lens, d)
    ensures DirSeen(img, VolFor(g), p, lens, d)
  {
    if d > 0 { RoomInSectors(lens[d - 1], g.sectorsPerCluster); }
  }

  lemma {:induction false} RoomInSectors(n: nat, spc: nat)
    ensures n * (spc * SECTOR_SIZE) == n * spc * SECTOR_SIZE
  {
  }

  lemma {:induction false} DirHasClusters(tree: Tree, spots: seq<Spot>, files: seq<File>, spc: nat, d: nat)
    requires spc > 0 && 0 < d < |tree|
    ensures Extents(tree, spots, files, spc)[d - 1] > 0
  {
    CeilDivBounds(EntryCount(tree, spots, d) * 32, spc * SECTOR_SIZE);
  }

  lemma {:induction false} HeldIsSeen(img: Bytes, g: Geometry, p: Plan)
    requires Holds(img, g, p)
    ensures Seen(img, VolFor(g), p, Lens(g, p))
  {
    LinksAreSeen(img, g, p);
    RootFillsSectors(g.rootEntries);
    var lens := Lens(g, p);
    forall d | 0 <= d < |p.tree|
      ensures DirSeen(img, VolFor(g), p, lens, d)
    {
      if d > 0 { DirHasClusters(p.tree, p.spots, p.files, g.sectorsPerCluster, d); }
      assert DirHeld(img, g, p, lens, d);
      DirIsSeen(img, g, p, lens, d);
    }
  }

  /** The entries the reader lists in a directory: one for each slot stored there. */
  lemma {:induction false} EntriesReadBack(img: Bytes, v: Volume, p: Plan, lens: seq<nat>, d: nat)
    requires NamesOk(p) && Shaped(p, lens) && d < |p.tree|
    requires LinksSeen(img, v, lens) && DirSeen(img, v, p, lens, d)
    ensures EntriesOf(img, v, DirCluster(p.tree, lens, d)) == DecodeAll(SlotsIn(p, lens, d), 0)
  {
    SlotsLive(p, lens, d);
    if d > 0 {
      WholeExtent(img, v, lens, d - 1);
      SectorsOfRun(v, Start(lens, d - 1), lens[d - 1]);
    }
    assert DirSectors(img, v, DirCluster(p.tree, lens, d)) == Range(DirLba(v, lens, d), DirSectorCount(v, lens, d));
    ScanStored(img, DirLba(v, lens, d), DirSectorCount(v, lens, d), SlotsIn(p, lens, d), 0);
  }

  // ---- paths ----

  lemma {:induction false} NamedIsUnique(entries: seq<Entry>, k: nat)
    requires k < |entries|
    requires forall j :: 0 <= j < |entries| && j != k ==> entries[j].name != entries[k].name
    ensures Named(entries, entries[k].name) == Some(entries[k])
  {
    if k > 0 { NamedIsUnique(entries[1..], k - 1); }
  }

  function EntryFor(p: Plan, lens: seq<nat>, x: Item): Entry
    requires Shaped(p, lens)
    requires if x.SubDir? then x.dir < |p.tree| else x.index < |p.files|
  {
    Decoded(ItemSlot(p.files, p.tree, p.spots, lens, x))
  }

  /** The entry for an item stands where the item stands in its directory's list. */
  lemma {:induction false} ItemEntry(p: Plan, lens: seq<nat>, d: nat, k: nat)
    requires NamesOk(p) && Shaped(p, lens) && d < |p.tree|
    requires ItemsInRange(p.files, p.tree, p.items[d]) && k < |p.items[d]|
    ensures Belongs(p.tree, p.spots, d, p.items[d][k])
    ensures var e := DecodeAll(SlotsIn(p, lens, d), 0)[k + DotEntries(d)];
            && e == EntryFor(p, lens, p.items[d][k])
            && e.name == ItemName(p.tree, p.spots, p.items[d][k])
            && e.name != [DOT] && e.name != [DOT, DOT]
  {
    ItemIsListed(p, d, k);
    assert NamesOkIn(p, d) && ReadsBack(p, p.items[d][k]);
    assert SlotsIn(p, lens, d)[k + DotEntries(d)] == ItemSlot(p.files, p.tree, p.spots, lens, p.items[d][k]);
  }

  lemma {:induction false} DotEntriesNamed(p: Plan, lens: seq<nat>, d: nat, k: nat)
    requires NamesOk(p) && Shaped(p, lens) && d < |p.tree|
    requires ItemsInRange(p.files, p.tree, p.items[d]) && k < DotEntries(d)
    ensures DecodeAll(SlotsIn(p, lens, d), 0)[k].name == if k == 0 then [DOT] else [DOT, DOT]
  {
    DotNamesReadBack();
    assert SlotsIn(p, lens, d)[k] == DotSlots(p.tree, lens, d)[k];
  }

  function ShownName(p: Plan, d: nat, j: nat): Name
    requires d < |p.items| && ItemsInRange(p.files, p.tree, p.items[d]) && |p.spots| == |p.files|
    requires j < DotEntries(d) + |p.items[d]|
  {
    if j < DotEntries(d) then (if j == 0 then [DOT] else [DOT, DOT])
    else ItemName(p.tree, p.spots, p.items[d][j - DotEntries(d)])
  }

  lemma {:induction false} DotShown(p: Plan, lens: seq<nat>, d: nat, j: nat)
    requires NamesOk(p) && Shaped(p, lens) && d < |p.tree|
    requires ItemsInRange(p.files, p.tree, p.items[d]) && j < DotEntries(d)
    ensures DecodeAll(SlotsIn(p, lens, d), 0)[j].name == ShownName(p, d, j)
  {
    DotEntriesNamed(p, lens, d, j);
  }

  lemma {:induction false} ItemShown(p: Plan, lens: seq<nat>, d: nat, j: nat)
    requires NamesOk(p) && Shaped(p, lens) && d < |p.tree|
    requires ItemsInRange(p.files, p.tree, p.items[d]) && DotEntries(d) <= j < DotEntries(d) + |p.items[d]|
    ensures DecodeAll(SlotsIn(p, lens, d), 0)[j].name == ShownName(p, d, j)
  {
    ItemEntry(p, lens, d, j - DotEntries(d));
  }

  /** The name shown by slot `j` of a directory. */
  lemma {:induction false} SlotName(p: Plan, lens: seq<nat>, d: nat, j: nat)
    requires NamesOk(p) && Shaped(p, lens) && d < |p.tree|
    requires ItemsInRange(p.files, p.tree, p.items[d]) && j < DotEntries(d) + |p.items[d]|
    ensures DecodeAll(SlotsIn(p, lens, d), 0)[j].name == ShownName(p, d, j)
  {
    if j < DotEntries(d) {
      DotShown(p, lens, d, j);
    } else {
      ItemShown(p, lens, d, j);
    }
  }

  lemma {:induction false} ShownNamesDiffer(p: Plan, d: nat, j: nat, k: nat)
    requires NamesOk(p) && d < |p.items| && ItemsInRange(p.files, p.tree, p.items[d])
    requires j < DotEntries(d) + |p.items[d]| && k < |p.items[d]| && j != k + DotEntries(d)
    ensures ShownName(p, d, j) != ShownName(p, d, k + DotEntries(d))
  {
    assert NamesOkIn(p, d);
    assert ReadsBack(p, p.items[d][k]);
    if j >= DotEntries(d) {
      assert ReadsBack(p, p.items[d][j - DotEntries(d)]);
    }
  }

  /** Looking up an item's name in its directory finds the item's entry. */
  lemma {:induction false} LookUp(img: Bytes, v: Volume, p: Plan, lens: seq<nat>, d: nat, x: Item)
    requires NamesOk(p) && Shaped(p, lens) && d < |p.tree|
    requires LinksSeen(img, v, lens) && DirSeen(img, v, p, lens, d)
    requires Belongs(p.tree, p.spots, d, x)
    ensures Named(EntriesOf(img, v, DirCluster(p.tree, lens, d)), ItemName(p.tree, p.spots, x))
         == Some(EntryFor(p, lens, x))
  {
    EntriesReadBack(img, v, p, lens, d);
    var k := PositionOf(p, d, x);
    LookUpAt(p, lens, d, k);
  }

  lemma {:induction false} PositionOf(p: Plan, d: nat, x: Item) returns (k: nat)
    requires Listed(p) && d < |p.tree| && Belongs(p.tree, p.spots, d, x)
    ensures k < |p.items[d]| && p.items[d][k] == x
  {
    assert ListsExactly(p.tree, p.spots, d, p.items[d]) && x in p.items[d];
    k :| 0 <= k < |p.items[d]| && p.items[d][k] == x;
  }

  lemma {:induction false} LookUpAt(p: Plan, lens: seq<nat>, d: nat, k: nat)
    requires NamesOk(p) && Shaped(p, lens) && d < |p.tree|
    requires ItemsInRange(p.files, p.tree, p.items[d]) && k < |p.items[d]|
    ensures Belongs(p.tree, p.spots, d, p.items[d][k])
    ensures Named(DecodeAll(SlotsIn(p, lens, d), 0), ItemName(p.tree, p.spots, p.items[d][k]))
         == Some(EntryFor(p, lens, p.items[d][k]))
  {
    ItemEntry(p, lens, d, k);
    var at := k + DotEntries(d);
    var entries := DecodeAll(SlotsIn(p, lens, d), 0);
    SlotName(p, lens, d, at);
    forall j | 0 <= j < |entries| && j != at
      ensures entries[j].name != entries[at].name
    {
      SlotName(p, lens, d, j);
      ShownNamesDiffer(p, d, j, k);
    }
    NamedIsUnique(entries, at);
  }

  lemma {:induction false} DirClusterSmall(v: Volume, p: Plan, lens: seq<nat>, d: nat)
    requires Shaped(p, lens) && d < |p.tree|
    requires Start(lens, |lens|) <= v.clusters + 2 <= 0xFFF6
    ensures ToU16(DirCluster(p.tree, lens, d)) == DirCluster(p.tree, lens, d)
    ensures DirCluster(p.tree, lens, d) == 0 <==> d == 0
  {
    if d > 0 { ExtentBounds(lens, d - 1); }
  }

  /** The path of a directory leads to the directory. */
  lemma {:induction false} ResolveDirectory(img: Bytes, v: Volume, p: Plan, lens: seq<nat>, c: nat, rest: seq<Name>)
    requires NamesOk(p) && Shaped(p, lens) && c < |p.tree|
    requires Seen(img, v, p, lens)
    ensures Resolve(img, v, 0, PathOf(p.tree, c) + rest, ROOT_ENTRY)
         == Resolve(img, v, DirCluster(p.tree, lens, c), rest,
                    if c == 0 then ROOT_ENTRY else EntryFor(p, lens, SubDir(c)))
    decreases c
  {
    if c == 0 {
      assert PathOf(p.tree, c) + rest == rest;
    } else {
      var d, name := p.tree[c].parent, p.tree[c].name;
      var below := [name] + rest;
      assert PathOf(p.tree, c) + rest == PathOf(p.tree, d) + below;
      ResolveDirectory(img, v, p, lens, d, below);
      assert DirSeen(img, v, p, lens, d);
      LookUp(img, v, p, lens, d, SubDir(c));
      DirClusterSmall(v, p, lens, c);
      assert below[0] == name && below[1..] == rest;
    }
  }

  // ---- files ----

  lemma {:induction false} SectorsBytesOfRun(img: Bytes, lba: nat, count: nat)
    requires (lba + count) * SECTOR_SIZE <= |img|
    ensures SectorsBytes(img, Range(lba, count)) == img[lba * SECTOR_SIZE..(lba + count) * SECTOR_SIZE]
  {
    if count > 0 {
      SectorsBytesOfRun(img, lba, count - 1);
      assert Range(lba, count)[..count - 1] == Range(lba, count - 1);
      var at := (lba + count - 1) * SECTOR_SIZE;
      assert at + SECTOR_SIZE <= |img|;
      assert SectorBytes(img, lba + count - 1) == img[at..at + SECTOR_SIZE];
      assert img[lba * SECTOR_SIZE..at] + img[at..at + SECTOR_SIZE] == img[lba * SECTOR_SIZE..at + SECTOR_SIZE];
    }
  }

  lemma {:induction false} RoomInClusters(bytes: nat, spc: nat, n: nat)
    requires spc > 0 && n == CeilDiv(bytes, spc * SECTOR_SIZE)
    ensures bytes <= n * spc * SECTOR_SIZE
    ensures n == 0 <==> bytes == 0
  {
    CeilDivBounds(bytes, spc * SECTOR_SIZE);
    assert n * (spc * SECTOR_SIZE) == n * spc * SECTOR_SIZE;
    if bytes == 0 {
      DivUnique(spc * SECTOR_SIZE - 1, spc * SECTOR_SIZE, 0, spc * SECTOR_SIZE - 1);
    }
  }

  lemma {:induction false} FileRoom(g: Geometry, p: Plan, i: nat)
    requires GeometryOk(g) && |p.tree| > 0 && Shaped(p, Lens(g, p)) && i < |p.files|
    ensures var n := Lens(g, p)[|p.tree| - 1 + i];
            && |p.files[i].data| <= n * g.sectorsPerCluster * SECTOR_SIZE
            && (n == 0 <==> p.files[i].data == [])
  {
    var n := Lens(g, p)[|p.tree| - 1 + i];
    assert n == CeilDiv(|p.files[i].data|, g.sectorsPerCluster * SECTOR_SIZE);
    RoomInClusters(|p.files[i].data|, g.sectorsPerCluster, n);
  }

  lemma {:induction false} ExtentInside(g: Geometry, lens: seq<nat>, k: nat)
    requires GeometryOk(g) && ExtentsFit(g, lens) && k < |lens|
    ensures (ClusterLba(VolFor(g), Start(lens, k))
             + lens[k] * g.sectorsPerCluster) * SECTOR_SIZE <= g.totalSectors * SECTOR_SIZE
  {
    StartBounds(g, lens, k);
    var first, n, spc := Start(lens, k), lens[k], g.sectorsPerCluster;
    MulDist(first - 2, n, spc);
    MulMono(first - 2 + n, g.clusters, spc);
  }

  /** Reading a file's entry gives the file's bytes. */
  lemma {:induction false} ContentsReadBack(img: Bytes, v: Volume, p: Plan, lens: seq<nat>, i: nat)
    requires Shaped(p, lens) && i < |p.files|
    requires LinksSeen(img, v, lens)
    requires FileSeen(img, v, p, lens, i)
    ensures EntryFor(p, lens, FileAt(i)).attr == ATTR_ARCHIVE
    ensures EntryFor(p, lens, FileAt(i)).size == |p.files[i].data|
    ensures ReadFile(img, v, EntryFor(p, lens, FileAt(i))) == p.files[i].data
  {
    var k := |p.tree| - 1 + i;
    var e, data := EntryFor(p, lens, FileAt(i)), p.files[i].data;
    ExtentBounds(lens, k);
    assert e.size == |data|;
    if lens[k] == 0 {
      assert ChainFrom(img, v, e.cluster, 0) == [];
    } else {
      var first := Start(lens, k);
      assert e.cluster == first;
      WholeExtent(img, v, lens, k);
      SectorsOfRun(v, first, lens[k]);
      CutContents(img, ClusterLba(v, first), lens[k] * v.secPerClus, data);
    }
  }

  lemma {:induction false} CutContents(img: Bytes, lba: nat, count: nat, data: Bytes)
    requires (lba + count) * SECTOR_SIZE <= |img| && |data| <= count * SECTOR_SIZE
    requires At(img, lba * SECTOR_SIZE, data)
    ensures CutTo(SectorsBytes(img, Range(lba, count)), |data|) == data
  {
    SectorsBytesOfRun(img, lba, count);
    var out := img[lba * SECTOR_SIZE..(lba + count) * SECTOR_SIZE];
    assert out[..|data|] == img[lba * SECTOR_SIZE..lba * SECTOR_SIZE + |data|];
  }

  /** The reader's view of a file: its bytes are in its extent. */
  ghost predicate FileSeen(img: Bytes, v: Volume, p: Plan, lens: seq<nat>, i: nat)
    requires Shaped(p, lens) && i < |p.files|
  {
    var k := |p.tree| - 1 + i;
    var data := p.files[i].data;
    && |data| < WORD_32
    && (lens[k] == 0 <==> data == [])
    && (ClusterLba(v, Start(lens, k)) + lens[k] * v.secPerClus) * SECTOR_SIZE <= |img|
    && |data| <= lens[k] * v.secPerClus * SECTOR_SIZE
    && At(img, ClusterLba(v, Start(lens, k)) * SECTOR_SIZE, data)
  }

  lemma {:induction false} FileIsSeen(img: Bytes, g: Geometry, p: Plan, i: nat)
    requires GeometryOk(g) && |p.tree| > 0 && Shaped(p, Lens(g, p)) && ExtentsFit(g, Lens(g, p)) && i < |p.files|
    requires |img| == g.totalSectors * SECTOR_SIZE && |p.files[i].data| < WORD_32
    requires FileHeld(img, g, p, Lens(g, p), i)
    ensures FileSeen(img, VolFor(g), p, Lens(g, p), i)
  {
    FileRoom(g, p, i);
    ExtentInside(g, Lens(g, p), |p.tree| - 1 + i);
  }

  lemma PathAsked(path: Bytes, name: Bytes)
    requires Asks(path, name)
    ensures Components(path) == AllParts(name)
  {
    UpperCaseIs(name, path[1..]);
    assert path == [SLASH] + Upper(name);
    ComponentsAbsolute(Upper(name));
    ComponentsOfName(name);
  }

  lemma {:induction false} FileFound(img: Bytes, v: Volume, p: Plan, lens: seq<nat>, i: nat, path: Bytes)
    requires NamesOk(p) && Shaped(p, lens) && i < |p.files| && Asks(path, p.files[i].name)
    requires SpotOk(p.files[i], p.tree, p.spots[i]) && Leaf(p.files[i].name) != []
    requires Seen(img, v, p, lens)
    ensures FindPath(img, v, path) == Some(EntryFor(p, lens, FileAt(i)))
  {
    var f, spot := p.files[i], p.spots[i];
    PathAsked(path, f.name);
    var name := Upper(spot.leaf);
    var parts: seq<Name> := [name];
    assert Components(path) == PathOf(p.tree, spot.dir) + parts;
    ResolveDirectory(img, v, p, lens, spot.dir, parts);
    assert DirSeen(img, v, p, lens, spot.dir);
    LookUp(img, v, p, lens, spot.dir, FileAt(i));
    assert parts[1..] == [];
  }

  lemma {:induction false} HeldParts(img: Bytes, g: Geometry, p: Plan, i: nat)
    requires Holds(img, g, p) && Readable(p) && i < |p.files|
    ensures Shaped(p, Lens(g, p)) && ExtentsFit(g, Lens(g, p))
    ensures |p.files[i].data| < WORD_32 && SpotOk(p.files[i], p.tree, p.spots[i]) && Leaf(p.files[i].name) != []
    ensures FileHeld(img, g, p, Lens(g, p), i)
  {
    assert ValidPath(p.files[i]);
  }

  /** Every file of a volume is found by its path in upper case, at any depth, and reading it
      gives exactly its bytes. */
  lemma {:induction false} EveryFileReadBack(img: Bytes, g: Geometry, p: Plan, i: nat, path: Bytes)
    requires Holds(img, g, p) && Readable(p) && i < |p.files| && Asks(path, p.files[i].name)
    ensures Recognised(img) && img[13] != 0
    ensures var v := VolumeOf(img);
            var e := FindPath(img, v, path);
            && e.Some?
            && e.value.attr == 0x20 && e.value.size == |p.files[i].data|
            && ReadFile(img, v, e.value) == p.files[i].data
  {
    GeometryReadBack(img, g);
    HeldIsSeen(img, g, p);
    ReadableNames(p);
    HeldParts(img, g, p, i);
    FileIsSeen(img, g, p, i);
    FileReadBack(img, VolFor(g), p, Lens(g, p), i, path);
  }

  lemma {:induction false} FileReadBack(img: Bytes, v: Volume, p: Plan, lens: seq<nat>, i: nat, path: Bytes)
    requires NamesOk(p) && Shaped(p, lens) && i < |p.files| && Asks(path, p.files[i].name)
    requires SpotOk(p.files[i], p.tree, p.spots[i]) && Leaf(p.files[i].name) != []
    requires Seen(img, v, p, lens) && FileSeen(img, v, p, lens, i)
    ensures FindPath(img, v, path) == Some(EntryFor(p, lens, FileAt(i)))
    ensures EntryFor(p, lens, FileAt(i)).attr == ATTR_ARCHIVE
    ensures EntryFor(p, lens, FileAt(i)).size == |p.files[i].data|
    ensures ReadFile(img, v, EntryFor(p, lens, FileAt(i))) == p.files[i].data
  {
    FileFound(img, v, p, lens, i, path);
    ContentsReadBack(img, v, p, lens, i);
  }
}
