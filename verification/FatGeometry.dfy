/** The sizing arithmetic of the FAT16 volume writer, in the 32-bit words the program
    computes it in, against the same formula over the integers. */
module FatGeometry {
  import opened Words

  const SECTOR_SIZE := 512
  const MIN_CLUSTERS := 4085
  const MAX_CLUSTERS := 65524

  /** The regions of a volume: boot and reserved sectors, FAT copies, root directory, clusters. */
  datatype Geometry = Geometry(
    totalSectors: nat,
    sectorsPerCluster: nat,
    numFats: nat,
    rootEntries: nat,
    reserved: nat,
    rootSectors: nat,
    sectorsPerFat: nat,
    fatLba: nat,
    rootLba: nat,
    dataLba: nat,
    clusters: nat)

  function ReservedSectors(payload: nat): u16 { ToU16(1 + CeilDiv(payload, SECTOR_SIZE)) }

  function RootSectors(rootEntries: u16): nat { CeilDiv(rootEntries * 32, SECTOR_SIZE) }

  /** Sectors of FAT for one sector-of-FAT's worth of clusters: the divisor of the formula. */
  function Divisor(spc: byte, numFats: byte): (d: nat)
    ensures d < 0x1_0000 && (spc > 0 ==> d >= 256)
  {
    var s: int, f: int := spc, numFats;
    256 * s + f
  }

  /** The writer's geometry: every operation wraps as it does on unsigned 32-bit words. */
  function Compute(payload: nat, totalSectors: u32, spc: byte, rootEntries: u16, numFats: byte): Geometry
    requires spc > 0
  {
    var reserved := ReservedSectors(payload);
    var rootSectors := RootSectors(rootEntries);
    var tmp1 := ToU32(totalSectors - (reserved + rootSectors));
    var perFat := PerFatWrapped(tmp1, spc, numFats);
    var rootLba := ToU32(reserved + ToU32(numFats * perFat));
    var dataLba := ToU32(rootLba + rootSectors);
    var clusters := Div(ToU32(totalSectors - dataLba), spc);
    Geometry(totalSectors, spc, numFats, rootEntries, reserved, rootSectors, perFat,
             reserved, rootLba, dataLba, clusters)
  }

  function PerFatWrapped(tmp1: u32, spc: byte, numFats: byte): nat
    requires spc > 0
  {
    var tmp2 := Divisor(spc, numFats);
    Div(ToU32(tmp1 + tmp2 - 1), tmp2)
  }

  /** The range of cluster counts that makes a volume FAT16. */
  predicate Accepted(g: Geometry) { MIN_CLUSTERS <= g.clusters <= MAX_CLUSTERS }

  /** What makes a volume FAT16: 4085 clusters or more, and fewer than 65525. */
  lemma SixteenBit(g: Geometry)
    ensures Accepted(g) <==> 4085 <= g.clusters < 65525
  {
  }

  // ---- the same arithmetic without wrap-around ----

  /** Sectors left for the FATs and the clusters; negative when the volume is too small. */
  function SectorsLeft(payload: nat, totalSectors: u32, rootEntries: u16): int {
    totalSectors - ReservedSectors(payload) - RootSectors(rootEntries)
  }

  function SectorsPerFat(left: nat, spc: byte, numFats: byte): nat
    requires spc > 0
  {
    CeilDiv(left, Divisor(spc, numFats))
  }

  /** By how much the FAT size is rounded up, in sectors of the volume. */
  function Excess(left: nat, spc: byte, numFats: byte): (e: nat)
    requires spc > 0
    ensures e < Divisor(spc, numFats)
  {
    CeilDivBounds(left, Divisor(spc, numFats));
    SectorsPerFat(left, spc, numFats) * Divisor(spc, numFats) - left
  }

  /** Sectors left for clusters once the FATs are placed. */
  function DataSectors(left: nat, spc: byte, numFats: byte): int
    requires spc > 0
  {
    left - numFats * SectorsPerFat(left, spc, numFats)
  }

  /** Whether the volume is big enough for its parts and has a FAT16 number of clusters. */
  predicate Fits(payload: nat, totalSectors: u32, spc: byte, rootEntries: u16, numFats: byte)
    requires spc > 0
  {
    var left := SectorsLeft(payload, totalSectors, rootEntries);
    && left >= 0
    && DataSectors(left, spc, numFats) >= 0
    && MIN_CLUSTERS <= Div(DataSectors(left, spc, numFats), spc) <= MAX_CLUSTERS
  }

  lemma DataSectorsByExcess(left: nat, spc: byte, numFats: byte)
    requires spc > 0
    ensures DataSectors(left, spc, numFats)
         == 256 * (SectorsPerFat(left, spc, numFats) * spc) - Excess(left, spc, numFats)
    ensures DataSectors(left, spc, numFats) > -256
  {
    var perFat := SectorsPerFat(left, spc, numFats);
    CeilDivBounds(left, Divisor(spc, numFats));
    ProductOfDivisor(perFat, spc, numFats);
    if perFat > 0 {
      MulMono(1, perFat, spc);
    }
  }

  lemma ProductOfDivisor(perFat: nat, spc: byte, numFats: byte)
    ensures perFat * Divisor(spc, numFats) == 256 * (perFat * spc) + numFats * perFat
  {
    MulDist(256 * spc, numFats, perFat);
  }

  lemma LargeFat(perFat: nat, tmp2: nat)
    requires 0 < tmp2 < 0x1_0000
    requires perFat * tmp2 >= WORD_32 - 0x2_0000
    ensures perFat >= 65000
  {
    if perFat < 65000 {
      MulMono(perFat, 65000, tmp2);
      assert false;
    }
  }

  lemma ToU32Shift(x: int, k: int)
    requires 0 <= x + k * WORD_32 < WORD_32
    ensures ToU32(x) == x + k * WORD_32
  {
    DivUnique(x, WORD_32, -k, x + k * WORD_32);
  }

  /** With about 2^32 sectors to divide up, the cluster count is far beyond FAT16, whatever
      the rounding addition wraps to. */
  lemma HugeIsRefused(tmp1: u32, spc: byte, numFats: byte)
    requires spc > 0 && tmp1 >= WORD_32 - 0x2_0000
    ensures Div(ToU32(tmp1 - numFats * PerFatWrapped(tmp1, spc, numFats)), spc) > MAX_CLUSTERS
  {
    var tmp2 := Divisor(spc, numFats);
    var perFat := PerFatWrapped(tmp1, spc, numFats);
    var data := tmp1 - numFats * perFat;
    if tmp1 + tmp2 - 1 >= WORD_32 {
      ToU32Shift(tmp1 + tmp2 - 1, -1);
      DivUnique(tmp1 + tmp2 - 1 - WORD_32, tmp2, 0, tmp1 + tmp2 - 1 - WORD_32);
      assert data == tmp1;
    } else {
      ToU32Shift(tmp1 + tmp2 - 1, 0);
      HugeData(tmp1, spc, numFats);
    }
    ToU32Shift(data, 0);
    QuotientAtLeast(data, spc, 65525);
  }

  lemma HugeData(left: nat, spc: byte, numFats: byte)
    requires spc > 0 && left >= WORD_32 - 0x2_0000
    ensures 65525 * spc <= DataSectors(left, spc, numFats) <= left
  {
    var perFat := SectorsPerFat(left, spc, numFats);
    CeilDivBounds(left, Divisor(spc, numFats));
    LargeFat(perFat, Divisor(spc, numFats));
    DataSectorsByExcess(left, spc, numFats);
    MulMono(65000, perFat, spc);
    MulMono(0, perFat, numFats);
  }

  /** Wrapping after every step is wrapping once at the end. */
  lemma DataWraps(total: u32, reserved: nat, rootSectors: nat, fats: nat)
    ensures ToU32(total - ToU32(ToU32(reserved + ToU32(fats)) + rootSectors))
         == ToU32(ToU32(total - (reserved + rootSectors)) - fats)
  {
    var a := ToU32(fats);
    var b := ToU32(reserved + a);
    var c := ToU32(b + rootSectors);
    var d := ToU32(total - (reserved + rootSectors));
    SameResidue(total - c, d - fats,
      (fats / WORD_32) + (reserved + a) / WORD_32 + (b + rootSectors) / WORD_32
      + (total - (reserved + rootSectors)) / WORD_32);
  }

  lemma SameResidue(x: int, y: int, k: int)
    requires x == y + k * WORD_32
    ensures ToU32(x) == ToU32(y)
  {
    DivUnique(x, WORD_32, y / WORD_32 + k, y % WORD_32);
  }

  lemma ClustersByWrapping(payload: nat, totalSectors: u32, spc: byte, rootEntries: u16, numFats: byte)
    requires spc > 0
    ensures var tmp1 := ToU32(SectorsLeft(payload, totalSectors, rootEntries));
            var g := Compute(payload, totalSectors, spc, rootEntries, numFats);
            && g.sectorsPerFat == PerFatWrapped(tmp1, spc, numFats)
            && g.clusters == Div(ToU32(tmp1 - numFats * g.sectorsPerFat), spc)
  {
    var g := Compute(payload, totalSectors, spc, rootEntries, numFats);
    var fats := numFats * g.sectorsPerFat;
    assert fats >= 0 by { MulMono(0, g.sectorsPerFat, numFats); }
    DataWraps(totalSectors, ReservedSectors(payload), RootSectors(rootEntries), fats);
  }

  lemma RootSectorsBound(rootEntries: u16)
    ensures RootSectors(rootEntries) <= 4096
  {
  }

  /** The writer accepts a geometry exactly when the volume really fits: no wrapped
      subtraction ever gets past the cluster-count check. */
  lemma AcceptedExactlyWhenFits(payload: nat, totalSectors: u32, spc: byte, rootEntries: u16, numFats: byte)
    requires spc > 0
    ensures Accepted(Compute(payload, totalSectors, spc, rootEntries, numFats))
       <==> Fits(payload, totalSectors, spc, rootEntries, numFats)
  {
    var left := SectorsLeft(payload, totalSectors, rootEntries);
    RootSectorsBound(rootEntries);
    ClustersByWrapping(payload, totalSectors, spc, rootEntries, numFats);
    AcceptedByLeft(left, spc, numFats);
  }

  lemma AcceptedByLeft(left: int, spc: byte, numFats: byte)
    requires spc > 0 && -0x2_0000 <= left < WORD_32
    ensures var tmp1 := ToU32(left);
            MIN_CLUSTERS <= Div(ToU32(tmp1 - numFats * PerFatWrapped(tmp1, spc, numFats)), spc) <= MAX_CLUSTERS
            <==> left >= 0 && DataSectors(left, spc, numFats) >= 0
                 && MIN_CLUSTERS <= Div(DataSectors(left, spc, numFats), spc) <= MAX_CLUSTERS
  {
    if left < 0 {
      ToU32Shift(left, 1);
      HugeIsRefused(left + WORD_32, spc, numFats);
    } else {
      ToU32Shift(left, 0);
      FitsWithoutUnderflow(left, spc, numFats);
    }
  }

  lemma FitsWithoutUnderflow(left: u32, spc: byte, numFats: byte)
    requires spc > 0
    ensures var perFat := PerFatWrapped(left, spc, numFats);
            var data := DataSectors(left, spc, numFats);
            MIN_CLUSTERS <= Div(ToU32(left - numFats * perFat), spc) <= MAX_CLUSTERS
            <==> data >= 0 && MIN_CLUSTERS <= Div(data, spc) <= MAX_CLUSTERS
  {
    var tmp2 := Divisor(spc, numFats);
    var data := DataSectors(left, spc, numFats);
    DataSectorsByExcess(left, spc, numFats);
    if left >= WORD_32 - 0x2_0000 {
      HugeIsRefused(left, spc, numFats);
      HugeData(left, spc, numFats);
      QuotientAtLeast(data, spc, 65525);
    } else {
      ToU32Shift(left + tmp2 - 1, 0);
      MulMono(0, SectorsPerFat(left, spc, numFats), numFats);
      if data < 0 {
        ToU32Shift(data, 1);
        QuotientAtLeast(data + WORD_32, spc, 65525);
      } else {
        ToU32Shift(data, 0);
      }
    }
  }

  /** An accepted geometry is the one the formula gives over the integers: its regions follow
      each other and end inside the volume. */
  lemma AcceptedIsExact(payload: nat, totalSectors: u32, spc: byte, rootEntries: u16, numFats: byte)
    requires spc > 0
    requires Accepted(Compute(payload, totalSectors, spc, rootEntries, numFats))
    ensures var g := Compute(payload, totalSectors, spc, rootEntries, numFats);
            var left := SectorsLeft(payload, totalSectors, rootEntries);
            && left >= 0
            && g.sectorsPerFat == SectorsPerFat(left, spc, numFats)
            && g.rootLba == g.fatLba + numFats * g.sectorsPerFat
            && g.dataLba == g.rootLba + g.rootSectors
            && totalSectors - g.dataLba == DataSectors(left, spc, numFats)
            && g.dataLba <= totalSectors
            && g.clusters == Div(totalSectors - g.dataLba, spc)
            && g.clusters * spc <= totalSectors - g.dataLba
  {
    var g := Compute(payload, totalSectors, spc, rootEntries, numFats);
    var left := SectorsLeft(payload, totalSectors, rootEntries);
    AcceptedExactlyWhenFits(payload, totalSectors, spc, rootEntries, numFats);
    NotHuge(left, spc, numFats);
    PerFatExact(left, spc, numFats);
    assert g.sectorsPerFat == SectorsPerFat(left, spc, numFats);
    FatsFit(left, g.sectorsPerFat, spc, numFats);
    RegionsFollow(totalSectors, g.reserved, g.rootSectors, numFats * g.sectorsPerFat);
    DivMod(totalSectors - g.dataLba, spc);
  }

  lemma NotHuge(left: nat, spc: byte, numFats: byte)
    requires spc > 0
    requires DataSectors(left, spc, numFats) >= 0 && Div(DataSectors(left, spc, numFats), spc) <= MAX_CLUSTERS
    ensures left < WORD_32 - 0x2_0000
  {
    if left >= WORD_32 - 0x2_0000 {
      HugeData(left, spc, numFats);
      QuotientAtLeast(DataSectors(left, spc, numFats), spc, 65525);
      assert false;
    }
  }

  lemma FatsFit(left: nat, perFat: nat, spc: byte, numFats: byte)
    requires spc > 0 && perFat == SectorsPerFat(left, spc, numFats)
    requires DataSectors(left, spc, numFats) >= 0
    ensures 0 <= numFats * perFat <= left
  {
    MulMono(0, perFat, numFats);
  }

  lemma PerFatExact(left: u32, spc: byte, numFats: byte)
    requires spc > 0 && left < WORD_32 - 0x2_0000
    ensures ToU32(left) == left
    ensures PerFatWrapped(left, spc, numFats) == SectorsPerFat(left, spc, numFats)
  {
    ToU32Shift(left, 0);
    ToU32Shift(left + Divisor(spc, numFats) - 1, 0);
  }

  lemma RegionsFollow(total: u32, reserved: nat, rootSectors: nat, fats: nat)
    requires reserved + rootSectors + fats <= total
    ensures ToU32(fats) == fats
    ensures ToU32(reserved + fats) == reserved + fats
    ensures ToU32(reserved + fats + rootSectors) == reserved + fats + rootSectors
    ensures ToU32(total - (reserved + fats + rootSectors)) == total - (reserved + fats + rootSectors)
  {
  }

  /** The number of clusters in closed form, whenever the regions fit, and how it compares with the FAT's
      entries: there is an entry for every cluster number exactly when the excess is more than one
      cluster. */
  lemma ClustersInClosedForm(left: nat, spc: byte, numFats: byte)
    requires spc > 0 && DataSectors(left, spc, numFats) >= 0
    ensures var clusters, entries := Div(DataSectors(left, spc, numFats), spc), 256 * SectorsPerFat(left, spc, numFats);
            var e := Excess(left, spc, numFats);
            clusters == entries - CeilDiv(e, spc) && (clusters + 2 <= entries <==> e > spc) && CeilDiv(e, spc) <= 512
  {
    var e := Excess(left, spc, numFats);
    DataSectorsByExcess(left, spc, numFats);
    CeilDivBounds(e, spc);
    ClosedForm(SectorsPerFat(left, spc, numFats), spc, e, CeilDiv(e, spc), DataSectors(left, spc, numFats));
  }

  /** The same of a geometry the writer accepts. */
  lemma AcceptedClusters(payload: nat, totalSectors: u32, spc: byte, rootEntries: u16, numFats: byte)
    requires spc > 0
    requires Accepted(Compute(payload, totalSectors, spc, rootEntries, numFats))
    ensures SectorsLeft(payload, totalSectors, rootEntries) >= 0
    ensures var g := Compute(payload, totalSectors, spc, rootEntries, numFats);
            var e := Excess(SectorsLeft(payload, totalSectors, rootEntries), spc, numFats);
            && g.clusters == 256 * g.sectorsPerFat - CeilDiv(e, spc)
            && (g.clusters + 2 <= 256 * g.sectorsPerFat <==> e > spc)
            && g.sectorsPerFat <= 0xFFFF
  {
    AcceptedIsExact(payload, totalSectors, spc, rootEntries, numFats);
    ClustersInClosedForm(SectorsLeft(payload, totalSectors, rootEntries), spc, numFats);
  }

  lemma ClosedForm(perFat: nat, spc: byte, e: nat, up: nat, data: nat)
    requires spc > 0 && e < 256 * spc + 256
    requires 0 <= up * spc - e < spc
    requires data == 256 * (perFat * spc) - e
    ensures Div(data, spc) == 256 * perFat - up
    ensures up >= 2 <==> e > spc
    ensures up <= 512
  {
    MulDist(256 * perFat - up, up, spc);
    assert 256 * perFat * spc == 256 * (perFat * spc);
    DivUnique(data, spc, 256 * perFat - up, up * spc - e);
    if up < 2 { MulMono(up, 1, spc); } else { MulMono(2, up, spc); }
    if up > 512 {
      MulMono(513, up, spc);
      assert false;
    }
  }

  /** Every sector of every cluster 2 .. clusters + 1 lies inside the volume, after the root
      directory. */
  lemma ClustersInsideVolume(payload: nat, totalSectors: u32, spc: byte, rootEntries: u16, numFats: byte, c: nat,
                             s: nat)
    requires spc > 0
    requires Accepted(Compute(payload, totalSectors, spc, rootEntries, numFats))
    requires 2 <= c < Compute(payload, totalSectors, spc, rootEntries, numFats).clusters + 2
    requires s < spc
    ensures var g := Compute(payload, totalSectors, spc, rootEntries, numFats);
            g.dataLba <= g.dataLba + (c - 2) * spc + s < totalSectors
  {
    AcceptedIsExact(payload, totalSectors, spc, rootEntries, numFats);
    var g := Compute(payload, totalSectors, spc, rootEntries, numFats);
    MulMono(c - 1, g.clusters, spc);
    MulMono(0, c - 2, spc);
    MulDist(c - 2, 1, spc);
  }
}
