/** Where the writer's promises stop: volumes whose FAT is two entries short, and root
    directories that do not fill their last sector. */
module FatLimits {
  import opened Words
  import opened FatGeometry
  import opened FatNames
  import opened FatTree
  import opened FatFormat
  import opened FatReader
  import opened FatRoundTrip
  import opened FatWriter
  import opened FatImage

  /** When the FAT size is rounded up by more than one cluster, no list of files can run out of
      FAT entries before it runs out of clusters. */
  lemma RoomForAllFiles(payload: nat, files: seq<File>, totalSectors: u32, spc: byte, rootEntries: u16, numFats: byte)
    requires spc > 0 && Accepted(Compute(payload, totalSectors, spc, rootEntries, numFats))
    requires SectorsLeft(payload, totalSectors, rootEntries) >= 0
    requires Excess(SectorsLeft(payload, totalSectors, rootEntries), spc, numFats) > spc
    ensures FatHasRoom(Compute(payload, totalSectors, spc, rootEntries, numFats), files)
  {
    AcceptedClusters(payload, totalSectors, spc, rootEntries, numFats);
  }

  /** A file in the root directory that takes all of a volume's clusters. */
  function FillingFile(g: Geometry): File {
    MulMono(0, g.sectorsPerCluster, g.clusters);
    File([0x46], seq(g.clusters * (g.sectorsPerCluster * SECTOR_SIZE), _ => 0))
  }

  lemma OneFileExtent(f: File, spc: nat)
    requires spc > 0 && f.name == [0x46]
    ensures PlaceAll([f]) == ([ROOT], [Spot(0, f.name)]) && RootCount([f]) == 1
    ensures ExtentsFor([f], spc) == [CeilDiv(|f.data|, spc * SECTOR_SIZE)]
  {
    PlacedInRoot(f);
    var spots := [Spot(0, f.name)];
    assert spots[..0] == [];
    assert CountFiles(spots, 0) == CountFiles(spots[..0], 0) + 1;
  }

  lemma PlacedInRoot(f: File)
    requires f.name == [0x46]
    ensures PlaceAll([f]) == ([ROOT], [Spot(0, f.name)])
  {
    assert IndexOf(f.name, SLASH) == 1;
    assert DirParts(f.name) == [] && Leaf(f.name) == f.name;
    var none: seq<Spot> := [];
    assert [f][..0] == [] && none + [Spot(0, f.name)] == [Spot(0, f.name)];
    assert PlaceAll([]) == ([ROOT], none);
    assert Place([ROOT], 0, []) == ([ROOT], 0);
  }

  /** A file of a volume's whole size leaves the clusters just enough and the FAT short of entries
      exactly when it has none for the last two. */
  lemma FillingFileOverruns(g: Geometry)
    requires g.sectorsPerCluster > 0
    ensures FatHasRoom(g, [FillingFile(g)]) <==> g.clusters + 2 <= 256 * g.sectorsPerFat
  {
    var f, size := FillingFile(g), g.sectorsPerCluster * SECTOR_SIZE;
    OneFileExtent(f, g.sectorsPerCluster);
    CeilDivUnique(|f.data|, size, g.clusters);
    var lens := ExtentsFor([f], g.sectorsPerCluster);
    assert Sum(lens, 1) == Sum(lens, 0) + lens[0];
  }

  /** Any file brings an entry into the root directory. */
  lemma SomethingInRoot(files: seq<File>)
    requires files != []
    ensures RootCount(files) > 0
  {
    var (t, spots) := PlaceAll(files);
    PlaceAllOk(files);
    if |t| > 1 {
      var x := Sub(t[1].name, 1);
      ChildrenExactly(t, 0, |t|, x);
      assert x in Children(t, 0, |t|);
    } else {
      assert spots[|spots| - 1].dir == 0;
      assert CountFiles(spots, 0) > 0;
    }
  }

  lemma NothingHasRoom(g: Geometry)
    requires g.sectorsPerCluster > 0 && g.sectorsPerFat > 0
    ensures FatHasRoom(g, [])
  {
    assert PlaceAll([]).0 == [ROOT];
    assert ExtentsFor([], g.sectorsPerCluster) == [];
  }

  /** No list of files that the root directory has room for overruns the FAT exactly when the FAT's size is
      rounded up by more than one cluster, or the root directory has no room: else one file that takes
      all the clusters does. */
  lemma RoomExactlyWhenExcess(payload: nat, totalSectors: u32, spc: byte, rootEntries: u16, numFats: byte)
    requires spc > 0 && Accepted(Compute(payload, totalSectors, spc, rootEntries, numFats))
    ensures SectorsLeft(payload, totalSectors, rootEntries) >= 0
    ensures var g := Compute(payload, totalSectors, spc, rootEntries, numFats);
            (forall files: seq<File> :: RootCount(files) <= rootEntries ==> FatHasRoom(g, files))
              <==> Excess(SectorsLeft(payload, totalSectors, rootEntries), spc, numFats) > spc || rootEntries == 0
  {
    var g := Compute(payload, totalSectors, spc, rootEntries, numFats);
    AcceptedClusters(payload, totalSectors, spc, rootEntries, numFats);
    FillingFileOverruns(g);
    OneFileExtent(FillingFile(g), g.sectorsPerCluster);
    if Excess(SectorsLeft(payload, totalSectors, rootEntries), spc, numFats) > spc {
      forall files: seq<File>
        ensures FatHasRoom(g, files)
      {
        RoomForAllFiles(payload, files, totalSectors, spc, rootEntries, numFats);
      }
    } else if rootEntries == 0 {
      forall files: seq<File> | RootCount(files) <= 0
        ensures FatHasRoom(g, files)
      {
        if files != [] { SomethingInRoot(files); }
        NothingHasRoom(g);
      }
    }
  }

  /** The parts of an accepted volume, from its FAT's size. */
  lemma RegionsAre(payload: nat, total: u32, spc: byte, entries: u16, copies: byte, perFat: nat)
    requires spc > 0 && Fits(payload, total, spc, entries, copies)
    requires perFat == SectorsPerFat(SectorsLeft(payload, total, entries), spc, copies)
    ensures var g := Compute(payload, total, spc, entries, copies);
            && Accepted(g) && g.sectorsPerCluster == spc && g.sectorsPerFat == perFat
            && g.rootLba == ReservedSectors(payload) + copies * perFat && g.dataLba == g.rootLba + RootSectors(entries)
            && g.clusters == Div(DataSectors(SectorsLeft(payload, total, entries), spc, copies), spc)
  {
    AcceptedExactlyWhenFits(payload, total, spc, entries, copies);
    AcceptedIsExact(payload, total, spc, entries, copies);
  }

  /** A volume the writer accepts whose last two clusters have no FAT entry: 16481 sectors with the
      default parameters and no payload. */
  lemma FatTwoEntriesShort()
    ensures var g := Compute(0, 16481, 2, 512, 2);
            && Accepted(g)
            && g.clusters == 8192 && 256 * g.sectorsPerFat == 8192 && g.sectorsPerCluster == 2
  {
    DefaultLeft(16481, 2, 512, 2);
    RegionsAre(0, 16481, 2, 512, 2, 32);
  }

  lemma DefaultLeft(total: u32, spc: byte, entries: u16, copies: byte)
    requires total == 16481 && spc == 2 && entries == 512 && copies == 2
    ensures SectorsLeft(0, total, entries) == 16448
    ensures SectorsPerFat(16448, spc, copies) == 32 && Excess(16448, spc, copies) == 0
    ensures DataSectors(16448, spc, copies) == 16384 && Div(16384, spc) == 8192 && Fits(0, total, spc, entries, copies)
  {
    CeilDivZero(SECTOR_SIZE);
    CeilDivUnique(512 * 32, SECTOR_SIZE, 32);
    CeilDivUnique(16448, Divisor(spc, copies), 32);
    DivUnique(16384, 2, 8192, 0);
  }

  /** On a volume whose FAT is short, a file of all its clusters passes the writer's checks and
      overruns the FAT. */
  lemma ShortFatOverrun(g: Geometry)
    requires g.sectorsPerCluster > 0 && g.clusters + 2 > 256 * g.sectorsPerFat
    ensures var f := FillingFile(g);
            var lens := ExtentsFor([f], g.sectorsPerCluster);
            RootCount([f]) == 1 && |lens| == 1 && Sum(lens, 1) == g.clusters && !FatHasRoom(g, [f])
  {
    var f, size := FillingFile(g), g.sectorsPerCluster * SECTOR_SIZE;
    FillingFileOverruns(g);
    OneFileExtent(f, g.sectorsPerCluster);
    CeilDivUnique(|f.data|, size, g.clusters);
    assert Sum([g.clusters], 1) == Sum([g.clusters], 0) + g.clusters;
  }

  /** Such a volume, and the file of 8 MB for it. */
  lemma ShortVolumeOverruns(g: Geometry)
    requires g == Compute(0, 16481, 2, 512, 2)
    ensures Accepted(g) && |FillingFile(g).data| == 8192 * 1024
    ensures RootCount([FillingFile(g)]) == 1 && !FatHasRoom(g, [FillingFile(g)])
  {
    FatTwoEntriesShort();
    EightMegabytes(g);
  }

  lemma EightMegabytes(g: Geometry)
    requires g.clusters == 8192 && 256 * g.sectorsPerFat == 8192 && g.sectorsPerCluster == 2
    ensures |FillingFile(g).data| == 8192 * 1024
    ensures RootCount([FillingFile(g)]) == 1 && !FatHasRoom(g, [FillingFile(g)])
  {
    ShortFatOverrun(g);
    FillingSize(g);
  }

  lemma FillingSize(g: Geometry)
    ensures |FillingFile(g).data| == g.clusters * (g.sectorsPerCluster * SECTOR_SIZE)
  {
  }

  /** The reader finds the clusters where the writer put them exactly when the root directory's
      entries fill its sectors: the writer rounds the sectors up, the reader rounds them down. */
  lemma RootMustFillSectors(img: Bytes, g: Geometry)
    requires LaidOut(g) && BootSectorOk(img, g)
    ensures Recognised(img) && img[13] != 0
    ensures VolumeOf(img).dataLba == g.dataLba <==> g.rootEntries % 16 == 0
  {
    RootFillsSectors(g.rootEntries);
    U16InRange(img, 11);
    U16InRange(img, 14);
    U16InRange(img, 17);
    U16InRange(img, 22);
  }

  /** With 17 root entries the reader looks for the clusters one sector before where they are, in the second
      sector of the root directory. */
  lemma SeventeenEntries(img: Bytes, g: Geometry)
    requires g == Compute(0, 16481, 2, 17, 2) && BootSectorOk(img, g)
    ensures Accepted(g) && Recognised(img) && img[13] != 0
    ensures g.dataLba == 69 && VolumeOf(img).dataLba == 68
  {
    SeventeenFit(g);
    RootMustFillSectors(img, g);
    U16InRange(img, 14);
    U16InRange(img, 17);
    U16InRange(img, 22);
  }

  lemma SeventeenFit(g: Geometry)
    requires g == Compute(0, 16481, 2, 17, 2)
    ensures Accepted(g) && LaidOut(g) && g.rootLba == 67 && g.dataLba == 69
    ensures Excess(SectorsLeft(0, 16481, 17), 2, 2) > 2
  {
    SeventeenLeft(16481, 2, 17, 2);
    RegionsAre(0, 16481, 2, 17, 2, 33);
    AcceptedIsLaidOut(0, 16481, 2, 17, 2);
  }

  lemma SeventeenLeft(total: u32, spc: byte, entries: u16, copies: byte)
    requires total == 16481 && spc == 2 && entries == 17 && copies == 2
    ensures ReservedSectors(0) == 1 && RootSectors(entries) == 2 && SectorsLeft(0, total, entries) == 16478
    ensures SectorsPerFat(16478, spc, copies) == 33 && Excess(16478, spc, copies) == 484
    ensures Fits(0, total, spc, entries, copies)
  {
    CeilDivZero(SECTOR_SIZE);
    CeilDivUnique(17 * 32, SECTOR_SIZE, 2);
    CeilDivUnique(16478, Divisor(spc, copies), 33);
    DivUnique(16412, 2, 8206, 0);
  }

  /** All FAT copies of a built volume agree. */
  lemma FatCopiesAgree(img: Bytes, g: Geometry, p: Plan, a: nat, b: nat, c: nat)
    requires Holds(img, g, p) && a < g.numFats && b < g.numFats && c < 256 * g.sectorsPerFat
    ensures FatEntry(img, VolFor(g), c, a) == FatEntry(img, VolFor(g), c, b)
  {
    var lens := Lens(g, p);
    LinkReadBack(img, g, p, c, a);
    LinkReadBack(img, g, p, c, b);
    if 2 <= c < Start(lens, |lens|) {
      var k := ExtentHolding(lens, c, |lens|);
    }
  }

  /** So the reader finds that they do, when they have an entry for every cluster. */
  lemma FatsAgreeWhenFull(img: Bytes, g: Geometry, p: Plan)
    requires Holds(img, g, p) && g.clusters + 2 <= 256 * g.sectorsPerFat
    ensures FatsAgree(img, VolFor(g), g.numFats)
  {
    if g.numFats > 1 {
      forall c | 0 <= c < g.clusters + 2
        ensures FatEntry(img, VolFor(g), c, 0) == FatEntry(img, VolFor(g), c, 1)
      {
        FatCopiesAgree(img, g, p, 0, 1, c);
      }
    }
  }
}
