/** The writer, the reader and the checker together: what goes into a volume comes out of it. */
module FatVolumes {
  import opened Words
  import opened FatGeometry
  import opened FatNames
  import opened FatTree
  import opened FatFormat
  import opened FatReader
  import opened FatRoundTrip
  import opened FatWriter
  import opened FatImage
  import opened FatChecker
  import opened FatConsistency
  import opened FatLimits

  /** Files a volume can hold side by side and the reader can tell apart. */
  predicate FilesOk(files: seq<File>) {
    DistinctPaths(files) && forall i :: 0 <= i < |files| ==> ValidPath(files[i]) && |files[i].data| < WORD_32
  }

  /** Builds a volume, loads it, finds a file by its path in upper case and reads it. */
  method BuildAndRead(payload: Bytes, files: seq<File>, totalSectors: u32, spc: byte, rootEntries: u16, numFats: byte,
                      i: nat, path: Bytes)
    returns (r: BuildResult, loaded: bool, out: Option<Bytes>)
    requires BuildSafe(|payload|, files, totalSectors, spc, rootEntries, numFats)
    requires FilesOk(files) && i < |files| && Asks(path, files[i].name)
    requires numFats > 0 && rootEntries % 16 == 0
    ensures r.Built? ==> loaded && out == Some(files[i].data)
  {
    var image;
    ghost var g, p;
    r, image, g, p := BuildFat16Image(payload, files, totalSectors, spc, rootEntries, numFats);
    loaded, out := false, None;
    if r.Built? {
      EveryFileReadBack(image[..], g, p, i, path);
      var volume := new Fat16Volume();
      loaded := volume.LoadBytes(image[..]);
      var e := volume.Find(path);
      var data := volume.Read(e.value);
      out := Some(data);
    }
  }

  /** The file cmd/F0.COM is asked for by /CMD/F0.COM. */
  lemma CmdAsked()
    ensures Asks([0x2F, 0x43, 0x4D, 0x44, 0x2F, 0x46, 0x30, 0x2E, 0x43, 0x4F, 0x4D],
                 [0x63, 0x6D, 0x64, 0x2F, 0x46, 0x30, 0x2E, 0x43, 0x4F, 0x4D])
  {
  }

  /** Builds a volume and checks it: the checker accepts it, and when the FAT has an entry for every
      cluster, those the files and directories do not take are free. */
  method BuildAndCheck(payload: Bytes, files: seq<File>, totalSectors: u32, spc: byte, rootEntries: u16, numFats: byte)
    returns (r: BuildResult, ok: bool, free: nat)
    requires BuildSafe(|payload|, files, totalSectors, spc, rootEntries, numFats)
    requires FilesOk(files) && numFats > 0 && rootEntries % 16 == 0
    ensures r.Built? ==> ok
    ensures var g := Compute(|payload|, totalSectors, spc, rootEntries, numFats);
            r.Built? && g.clusters + 2 <= 256 * g.sectorsPerFat ==>
              var lens := ExtentsFor(files, spc);
              free == g.clusters - Sum(lens, |lens|)
  {
    var image;
    ghost var g, p;
    r, image, g, p := BuildFat16Image(payload, files, totalSectors, spc, rootEntries, numFats);
    ok, free := false, 0;
    if r.Built? {
      ok, free := Check(image[..], g, p);
    }
  }

  /** An empty volume with 17 root entries is built and loaded, and the reader has the clusters one sector
      before where the writer put them. */
  method BuildSeventeen() returns (loaded: bool, dataLba: nat, ghost g: Geometry)
    ensures loaded && g == Compute(0, 16481, 2, 17, 2) && Accepted(g) && dataLba + 1 == g.dataLba
  {
    g := Compute(0, 16481, 2, 17, 2);
    EmptyVolumeFits(g);
    var image := BuildEmpty(16481, 2, 17, 2, g);
    SeventeenEntries(image[..], g);
    loaded, dataLba := DataStart(image[..]);
  }

  method BuildEmpty(totalSectors: u32, spc: byte, rootEntries: u16, numFats: byte, ghost g: Geometry)
    returns (image: array<byte>)
    requires BuildSafe(0, [], totalSectors, spc, rootEntries, numFats)
    requires g == Compute(0, totalSectors, spc, rootEntries, numFats) && Accepted(g)
    requires RootCount([]) == 0 && Sum(ExtentsFor([], spc), |ExtentsFor([], spc)|) == 0
    ensures BootSectorOk(image[..], g)
  {
    var r;
    ghost var g', p;
    r, image, g', p := BuildFat16Image([], [], totalSectors, spc, rootEntries, numFats);
  }

  method DataStart(img: Bytes) returns (loaded: bool, dataLba: nat)
    requires Recognised(img) && img[13] != 0
    ensures loaded && dataLba == VolumeOf(img).dataLba
  {
    var volume := new Fat16Volume();
    loaded := volume.LoadBytes(img);
    dataLba := volume.dataLba;
  }

  lemma EmptyVolumeFits(g: Geometry)
    requires g == Compute(0, 16481, 2, 17, 2)
    ensures Accepted(g) && BuildSafe(0, [], 16481, 2, 17, 2) && RootCount([]) == 0
    ensures Sum(ExtentsFor([], 2), |ExtentsFor([], 2)|) == 0
  {
    SeventeenFit(g);
    CeilDivZero(SECTOR_SIZE);
    RoomForAllFiles(0, [], 16481, 2, 17, 2);
    assert PlaceAll([]).0 == [ROOT];
    assert ExtentsFor([], 2) == [];
  }

  /** The checker's walk over a volume that holds a plan, and the reader's count of free clusters. */
  method Check(img: Bytes, ghost g: Geometry, ghost p: Plan) returns (ok: bool, free: nat)
    requires Holds(img, g, p) && Readable(p)
    ensures ok
    ensures g.clusters + 2 <= 256 * g.sectorsPerFat ==> free == g.clusters - Sum(Lens(g, p), |Lens(g, p)|)
  {
    ghost var v := VolFor(g);
    GeometryReadBack(img, g);
    HeldIsAccepted(img, g, p, v);
    ok := WalkAll(img, v);
    free := CountAll(img, v);
    if g.clusters + 2 <= 256 * g.sectorsPerFat {
      FreeLeft(img, g, p, v);
    }
  }

  /** The walk from the root of a volume, nothing being used yet. */
  method WalkAll(img: Bytes, ghost v: Volume) returns (ok: bool)
    requires Recognised(img) && img[13] != 0 && VolumeOf(img) == v
    ensures ok <==> WalkVolume(img, v).Fine?
  {
    var walk := new Walk();
    ghost var walked;
    ok, walked := walk.WalkFrom(img, VolumeOf(img), 0, 0);
  }

  method CountAll(img: Bytes, ghost v: Volume) returns (free: nat)
    requires Recognised(img) && img[13] != 0 && VolumeOf(img) == v
    ensures free == CountFree(img, v, v.clusters + 2)
  {
    var volume := new Fat16Volume();
    var loaded := volume.LoadBytes(img);
    free := volume.FreeClusters();
  }

  lemma {:induction false} HeldIsAccepted(img: Bytes, g: Geometry, p: Plan, v: Volume)
    requires Holds(img, g, p) && Readable(p) && v == VolFor(g)
    ensures WalkVolume(img, v).Fine?
  {
    BuiltVolumeAccepted(img, g, p);
  }

  lemma {:induction false} FreeLeft(img: Bytes, g: Geometry, p: Plan, v: Volume)
    requires Holds(img, g, p) && Readable(p) && v == VolFor(g) && g.clusters + 2 <= 256 * g.sectorsPerFat
    ensures CountFree(img, v, v.clusters + 2) == g.clusters - Sum(Lens(g, p), |Lens(g, p)|)
  {
    NothingLost(img, g, p);
    FreeOfClean(img, v, g.clusters - Sum(Lens(g, p), |Lens(g, p)|));
  }

  lemma {:induction false} FreeOfClean(img: Bytes, v: Volume, free: int)
    requires Clean(img, v, free)
    ensures CountFree(img, v, v.clusters + 2) == free
  {
  }
}
