/** The independent reader of FAT16 volumes: boot sector, cluster chains, directories, paths
    and file contents, straight off the bytes of an image. */
module FatReader {
  import opened Words
  import opened FatGeometry
  import opened FatNames

  datatype Volume = Volume(
    secPerClus: nat,
    rootEntries: nat,
    secPerFat: nat,
    fatLba: nat,
    rootLba: nat,
    dataLba: nat,
    clusters: nat)

  datatype Entry = Entry(name: Name, attr: byte, cluster: u16, size: u32)

  /** The byte at `off`. A read past the end of the image, which the program does not guard
      against, gives 0 here. */
  function ByteAt(img: Bytes, off: nat): byte { if off < |img| then img[off] else 0 }

  function U16At(img: Bytes, off: nat): u16 {
    var lo: int, hi: int := ByteAt(img, off), ByteAt(img, off + 1);
    lo + 0x100 * hi
  }

  function U32At(img: Bytes, off: nat): u32 {
    var lo: int, hi: int := U16At(img, off), U16At(img, off + 2);
    lo + WORD_16 * hi
  }

  /** Whether the image begins like a boot sector the reader takes. */
  predicate Recognised(img: Bytes) {
    |img| >= 512 && img[510] == 0x55 && img[511] == 0xAA && U16At(img, 11) == 512
  }

  function VolumeOf(img: Bytes): Volume
    requires Recognised(img) && img[13] != 0
  {
    var rootEntries := U16At(img, 17);
    var total := if U16At(img, 19) != 0 then U16At(img, 19) else U32At(img, 32);
    var secPerFat := U16At(img, 22);
    var rootLba := U16At(img, 14) + img[16] * secPerFat;
    var dataLba := rootLba + rootEntries / 16;
    Volume(img[13], rootEntries, secPerFat, U16At(img, 14), rootLba, dataLba,
           Div(ToU32(total - dataLba), img[13]))
  }

  function FatEntry(img: Bytes, v: Volume, c: nat, copy: nat): u16 {
    U16At(img, (v.fatLba + copy * v.secPerFat) * SECTOR_SIZE + c * 2)
  }

  function ClusterLba(v: Volume, c: nat): nat
    requires c >= 2
  {
    v.dataLba + (c - 2) * v.secPerClus
  }

  /** The clusters of a chain from `c` on, `n` of them taken before. */
  function ChainFrom(img: Bytes, v: Volume, c: nat, n: nat): (r: seq<nat>)
    ensures forall k :: 0 <= k < |r| ==> 2 <= r[k] < 0xFFF8
    decreases v.clusters + 1 - n
  {
    if 2 <= c < 0xFFF8 && n <= v.clusters then [c] + ChainFrom(img, v, FatEntry(img, v, c, 0), n + 1) else []
  }

  predicate IsLink(c: nat) { 2 <= c < 0xFFF8 }

  /** Some clusters, each the one the FAT has for the one before; they end where it has none for the last, or
      when they are one more than the volume has clusters, as those of a cycle are. */
  ghost predicate Followed(img: Bytes, v: Volume, c: nat, n: nat, chain: seq<nat>) {
    && (chain == [] <==> !IsLink(c) || n > v.clusters)
    && (chain != [] ==> chain[0] == c && |chain| <= v.clusters + 1 - n)
    && (forall k :: 0 <= k < |chain| ==> IsLink(chain[k]))
    && (forall k :: 0 < k < |chain| ==> chain[k] == FatEntry(img, v, chain[k - 1], 0))
    && (chain != [] && |chain| < v.clusters + 1 - n ==> !IsLink(FatEntry(img, v, chain[|chain| - 1], 0)))
  }

  lemma {:induction false} ChainFollows(img: Bytes, v: Volume, c: nat, n: nat)
    ensures Followed(img, v, c, n, ChainFrom(img, v, c, n))
    decreases v.clusters + 1 - n
  {
    if IsLink(c) && n <= v.clusters {
      ChainFollows(img, v, FatEntry(img, v, c, 0), n + 1);
      FollowOn(img, v, c, n, ChainFrom(img, v, FatEntry(img, v, c, 0), n + 1));
    }
  }

  lemma FollowOn(img: Bytes, v: Volume, c: nat, n: nat, rest: seq<nat>)
    requires IsLink(c) && n <= v.clusters && Followed(img, v, FatEntry(img, v, c, 0), n + 1, rest)
    ensures Followed(img, v, c, n, [c] + rest)
  {
    var chain := [c] + rest;
    forall k | 0 < k < |chain|
      ensures chain[k] == FatEntry(img, v, chain[k - 1], 0)
    {
      if k > 1 {
        assert rest[k - 1] == FatEntry(img, v, rest[k - 2], 0);
      }
    }
  }

  function Range(from: nat, count: nat): (r: seq<nat>)
    ensures |r| == count
  {
    seq(count, i requires i >= 0 => from + i)
  }

  /** The sectors of a list of clusters, in order. */
  function SectorsOf(v: Volume, chain: seq<nat>): seq<nat>
    requires forall k :: 0 <= k < |chain| ==> chain[k] >= 2
  {
    if chain == [] then []
    else SectorsOf(v, chain[..|chain| - 1]) + Range(ClusterLba(v, chain[|chain| - 1]), v.secPerClus)
  }

  function DirSectors(img: Bytes, v: Volume, dir: nat): seq<nat> {
    if dir == 0 then Range(v.rootLba, v.rootEntries / 16) else SectorsOf(v, ChainFrom(img, v, dir, 0))
  }

  /** Byte offset of directory entry number `k` in a list of sectors. */
  function EntryOffset(sectors: seq<nat>, k: nat): nat
    requires k < 16 * |sectors|
  {
    sectors[k / 16] * SECTOR_SIZE + k % 16 * 32
  }

  function Field11(img: Bytes, off: nat): (r: Bytes)
    ensures |r| == 11 && forall i :: 0 <= i < 11 ==> r[i] == ByteAt(img, off + i)
  {
    seq<byte>(11, i requires i >= 0 => ByteAt(img, off + i))
  }

  function DecodeEntry(img: Bytes, off: nat): Entry {
    Entry(Dotted(Field11(img, off)), ByteAt(img, off + 11), U16At(img, off + 26), U32At(img, off + 28))
  }

  /** Entries the reader passes over: deleted ones and volume labels. */
  predicate Skipped(img: Bytes, off: nat) {
    ByteAt(img, off) == 0xE5 || ByteAt(img, off + 11) / 8 % 2 == 1
  }

  /** The live entries from number `k` on, up to the first never-used one. */
  function Scan(img: Bytes, sectors: seq<nat>, k: nat): seq<Entry>
    requires k <= 16 * |sectors|
    decreases 16 * |sectors| - k
  {
    if k == 16 * |sectors| then []
    else
      var off := EntryOffset(sectors, k);
      if ByteAt(img, off) == 0 then []
      else if Skipped(img, off) then Scan(img, sectors, k + 1)
      else [DecodeEntry(img, off)] + Scan(img, sectors, k + 1)
  }

  /** The entries found before the k-th slot, those of the whole directory being `all`. */
  ghost predicate FoundBefore(img: Bytes, sectors: seq<nat>, k: nat, out: seq<Entry>, all: seq<Entry>) {
    k <= 16 * |sectors| && out + Scan(img, sectors, k) == all
  }

  /** What one step of the scan adds to the entries found before it. */
  lemma ScanStep(img: Bytes, sectors: seq<nat>, s: nat, i: nat, out: seq<Entry>, all: seq<Entry>)
    requires s < |sectors| && i < 16 && FoundBefore(img, sectors, 16 * s + i, out, all)
    ensures var off := sectors[s] * SECTOR_SIZE + i * 32;
            if ByteAt(img, off) == 0 then out == all
            else FoundBefore(img, sectors, 16 * s + (i + 1),
                             if Skipped(img, off) then out else out + [DecodeEntry(img, off)], all)
  {
    var k := 16 * s + i;
    assert k / 16 == s && k % 16 == i;
    assert EntryOffset(sectors, k) == sectors[s] * SECTOR_SIZE + i * 32;
    assert out + [] == out;
  }

  /** A slot that is listed: before the first whose first byte is 0, not deleted, which its first byte $E5
      would say, and not a volume label, which bit 3 of its attribute would. */
  predicate InList(img: Bytes, sectors: seq<nat>, k: nat) {
    && k < 16 * |sectors|
    && (forall j :: 0 <= j <= k ==> ByteAt(img, EntryOffset(sectors, j)) != 0)
    && ByteAt(img, EntryOffset(sectors, k)) != 0xE5 && ByteAt(img, EntryOffset(sectors, k) + 11) / 8 % 2 == 0
  }

  /** Some entries are those of the listed slots from number k on, in order: none is left out, and no
      deleted one and no label is among them. */
  ghost predicate ListsFrom(img: Bytes, sectors: seq<nat>, k: nat, slots: seq<nat>, entries: seq<Entry>) {
    && |slots| == |entries|
    && (forall i, j :: 0 <= i < j < |slots| ==> slots[i] < slots[j])
    && (forall s :: s in slots <==> k <= s && InList(img, sectors, s))
    && (forall i :: 0 <= i < |slots| ==>
          InList(img, sectors, slots[i]) && entries[i] == DecodeEntry(img, EntryOffset(sectors, slots[i])))
  }

  lemma ListOn(img: Bytes, sectors: seq<nat>, k: nat, slots: seq<nat>, entries: seq<Entry>)
    requires InList(img, sectors, k) && ListsFrom(img, sectors, k + 1, slots, entries)
    ensures ListsFrom(img, sectors, k, [k] + slots, [DecodeEntry(img, EntryOffset(sectors, k))] + entries)
  {
    forall i | 0 <= i < |slots|
      ensures slots[i] > k
    {
      assert slots[i] in slots;
    }
  }

  lemma ListNothing(img: Bytes, sectors: seq<nat>, k: nat)
    requires k >= 16 * |sectors| || ByteAt(img, EntryOffset(sectors, k)) == 0
    ensures ListsFrom(img, sectors, k, [], [])
  {
    forall s | k <= s
      ensures !InList(img, sectors, s)
    {
    }
  }

  lemma ListPast(img: Bytes, sectors: seq<nat>, k: nat, slots: seq<nat>, entries: seq<Entry>)
    requires !InList(img, sectors, k) && ListsFrom(img, sectors, k + 1, slots, entries)
    ensures ListsFrom(img, sectors, k, slots, entries)
  {
  }

  /** What a scan of a directory finds from a slot on. */
  lemma {:induction false} ScanLists(img: Bytes, sectors: seq<nat>, k: nat) returns (slots: seq<nat>)
    requires k <= 16 * |sectors| && forall j :: 0 <= j < k ==> ByteAt(img, EntryOffset(sectors, j)) != 0
    ensures ListsFrom(img, sectors, k, slots, Scan(img, sectors, k))
    decreases 16 * |sectors| - k
  {
    if k == 16 * |sectors| || ByteAt(img, EntryOffset(sectors, k)) == 0 {
      ListNothing(img, sectors, k);
      slots := [];
    } else {
      slots := ScanLists(img, sectors, k + 1);
      var rest := Scan(img, sectors, k + 1);
      if Skipped(img, EntryOffset(sectors, k)) {
        ListPast(img, sectors, k, slots, rest);
      } else {
        ListOn(img, sectors, k, slots, rest);
        slots := [k] + slots;
      }
    }
  }

  function EntriesOf(img: Bytes, v: Volume, dir: nat): seq<Entry> { Scan(img, DirSectors(img, v, dir), 0) }

  /** The first entry called `name`. */
  function Named(entries: seq<Entry>, name: Name): Option<Entry> {
    if entries == [] then None
    else if entries[0].name == name then Some(entries[0])
    else Named(entries[1..], name)
  }

  /** Of several entries of one name the first is found, and none if no entry has it. */
  lemma {:induction false} NamedFirst(entries: seq<Entry>, name: Name, k: nat)
    requires k <= |entries| && forall j :: 0 <= j < k ==> entries[j].name != name
    requires k < |entries| ==> entries[k].name == name
    ensures Named(entries, name) == if k < |entries| then Some(entries[k]) else None
  {
    if k > 0 {
      NamedFirst(entries[1..], name, k - 1);
    }
  }

  /** Follow `parts` down from directory `dir`; `found` is the entry it was reached by. */
  function Resolve(img: Bytes, v: Volume, dir: nat, parts: seq<Name>, found: Entry): Option<Entry>
    decreases |parts|
  {
    if parts == [] then Some(found)
    else
      match Named(EntriesOf(img, v, dir), parts[0])
      case None => None
      case Some(e) => Resolve(img, v, e.cluster, parts[1..], e)
  }

  /** What a path leads to when it names nothing: the root itself. */
  const ROOT_ENTRY := Entry([SLASH], 0x10, 0, 0)

  lemma NextComponent(path: Bytes, i: nat)
    requires i < |path| && path[i] != SLASH
    ensures var j := i + IndexOf(path[i..], SLASH);
            && i < j <= |path|
            && Components(path[i..]) == [path[i..j]] + Components(path[j..])
            && Components(path[i..])[0] == path[i..j] && Components(path[i..])[1..] == Components(path[j..])
  {
    var j := i + IndexOf(path[i..], SLASH);
    assert path[i..][..j - i] == path[i..j] && path[i..][j - i..] == path[j..];
  }

  function FindPath(img: Bytes, v: Volume, path: Bytes): Option<Entry> {
    Resolve(img, v, 0, Components(path), ROOT_ENTRY)
  }

  function SectorBytes(img: Bytes, lba: nat): (r: Bytes)
    ensures |r| == SECTOR_SIZE && forall i :: 0 <= i < SECTOR_SIZE ==> r[i] == ByteAt(img, lba * SECTOR_SIZE + i)
  {
    seq<byte>(SECTOR_SIZE, i requires i >= 0 => ByteAt(img, lba * SECTOR_SIZE + i))
  }

  function SectorsBytes(img: Bytes, sectors: seq<nat>): (r: Bytes)
    ensures |r| == SECTOR_SIZE * |sectors|
  {
    if sectors == [] then []
    else SectorsBytes(img, sectors[..|sectors| - 1]) + SectorBytes(img, sectors[|sectors| - 1])
  }

  lemma SectorsOn(img: Bytes, read: seq<nat>, lba: nat, n: nat)
    ensures SectorsBytes(img, read + Range(lba, n + 1)) == SectorsBytes(img, read + Range(lba, n))
            + SectorBytes(img, lba + n)
  {
    var next := read + Range(lba, n + 1);
    assert next[..|next| - 1] == read + Range(lba, n);
  }

  function CutTo(out: Bytes, size: nat): Bytes { if |out| > size then out[..size] else out }

  function ReadFile(img: Bytes, v: Volume, e: Entry): Bytes {
    CutTo(SectorsBytes(img, SectorsOf(v, ChainFrom(img, v, e.cluster, 0))), e.size)
  }

  function CountFree(img: Bytes, v: Volume, c: nat): nat {
    if c <= 2 then 0 else CountFree(img, v, c - 1) + (if FatEntry(img, v, c - 1, 0) == 0 then 1 else 0)
  }

  /** The first two copies of the FAT agree on every cluster, if there are two. */
  predicate FatsAgree(img: Bytes, v: Volume, nfats: nat) {
    nfats > 1 ==> forall c :: 0 <= c < v.clusters + 2 ==> FatEntry(img, v, c, 0) == FatEntry(img, v, c, 1)
  }

  /** A volume being read, with the boot sector's fields taken apart. */
  class Fat16Volume {
    var img: Bytes
    var secPerClus: nat
    var reserved: nat
    var nfats: nat
    var secPerFat: nat
    var rootEntries: nat
    var totalSectors: nat
    var fatLba: nat
    var rootLba: nat
    var dataLba: nat
    var clusters: nat

    function Vol(): Volume
      reads this
    {
      Volume(secPerClus, rootEntries, secPerFat, fatLba, rootLba, dataLba, clusters)
    }

    constructor ()
      ensures img == []
    {
      img := [];
      secPerClus, reserved, nfats, secPerFat, rootEntries, totalSectors := 0, 0, 0, 0, 0, 0;
      fatLba, rootLba, dataLba, clusters := 0, 0, 0, 0;
    }

    /** The fields of the boot sector. */
    method TakeFields()
      requires |img| >= 512
      modifies this`secPerClus, this`reserved, this`nfats, this`rootEntries, this`totalSectors, this`secPerFat
      ensures secPerClus == img[13] && reserved == U16At(img, 14) && nfats == img[16] && rootEntries == U16At(img, 17)
      ensures totalSectors == (if U16At(img, 19) != 0 then U16At(img, 19) else U32At(img, 32))
      ensures secPerFat == U16At(img, 22)
    {
      secPerClus := img[13];
      reserved := U16At(img, 14);
      nfats := img[16];
      rootEntries := U16At(img, 17);
      totalSectors := if U16At(img, 19) != 0 then U16At(img, 19) else U32At(img, 32);
      secPerFat := U16At(img, 22);
    }

    /** Where the regions are. */
    method PlaceRegions()
      requires secPerClus > 0
      modifies this`fatLba, this`rootLba, this`dataLba, this`clusters
      ensures fatLba == reserved && rootLba == reserved + nfats * secPerFat && dataLba == rootLba + rootEntries / 16
      ensures clusters == Div(ToU32(totalSectors - dataLba), secPerClus)
    {
      fatLba := reserved;
      rootLba := reserved + nfats * secPerFat;
      dataLba := rootLba + rootEntries / 16;
      clusters := Div(ToU32(totalSectors - dataLba), secPerClus);
    }

    /** Takes an image and its boot sector apart; false if it is no boot sector. A volume with no
        sectors in a cluster would be divided by. */
    method LoadBytes(bytes: Bytes) returns (ok: bool)
      requires Recognised(bytes) ==> bytes[13] != 0
      modifies this
      ensures img == bytes
      ensures ok <==> Recognised(bytes)
      ensures ok ==> Vol() == VolumeOf(bytes) && nfats == bytes[16]
    {
      img := bytes;
      if |img| < 512 || img[510] != 0x55 || img[511] != 0xAA {
        return false;
      }
      if U16At(img, 11) != 512 {
        return false;
      }
      TakeFields();
      PlaceRegions();
      return true;
    }

    /** The clusters of a chain, in order; a cycle or a wild link ends it early. */
    method Chain(first: u16) returns (out: seq<nat>)
      ensures out == ChainFrom(img, Vol(), first, 0)
    {
      var v := Vol();
      out := [];
      var c: nat := first;
      while c >= 2 && c < 0xFFF8 && |out| <= v.clusters
        invariant out + ChainFrom(img, v, c, |out|) == ChainFrom(img, v, first, 0)
        decreases v.clusters + 1 - |out|
      {
        var next := FatEntry(img, v, c, 0);
        assert ChainFrom(img, v, c, |out|) == [c] + ChainFrom(img, v, next, |out| + 1);
        out := out + [c];
        c := next;
      }
    }

    /** The number of clusters marked free. */
    method FreeClusters() returns (n: nat)
      ensures n == CountFree(img, Vol(), clusters + 2)
    {
      n := 0;
      var c := 2;
      while c < clusters + 2
        invariant 2 <= c <= clusters + 2
        invariant n == CountFree(img, Vol(), c)
      {
        if FatEntry(img, Vol(), c, 0) == 0 { n := n + 1; }
        c := c + 1;
      }
    }

    /** Whether the first two FAT copies agree. */
    method FatsMatch() returns (ok: bool)
      ensures ok <==> FatsAgree(img, Vol(), nfats)
    {
      var c := 0;
      while c < clusters + 2 && nfats > 1
        invariant 0 <= c <= clusters + 2
        invariant forall k :: 0 <= k < c ==> FatEntry(img, Vol(), k, 0) == FatEntry(img, Vol(), k, 1)
      {
        if FatEntry(img, Vol(), c, 0) != FatEntry(img, Vol(), c, 1) { return false; }
        c := c + 1;
      }
      return true;
    }

    method SectorList(dir: u16) returns (sectors: seq<nat>)
      ensures sectors == DirSectors(img, Vol(), dir)
    {
      sectors := [];
      if dir == 0 {
        for i := 0 to rootEntries / 16
          invariant sectors == Range(rootLba, i)
        {
          sectors := sectors + [rootLba + i];
        }
      } else {
        var chain := Chain(dir);
        for k := 0 to |chain|
          invariant sectors == SectorsOf(Vol(), chain[..k])
        {
          ghost var before := sectors;
          for i := 0 to secPerClus
            invariant sectors == before + Range(ClusterLba(Vol(), chain[k]), i)
          {
            sectors := sectors + [ClusterLba(Vol(), chain[k]) + i];
          }
          assert chain[..k + 1][..k] == chain[..k];
        }
        assert chain[..|chain|] == chain;
      }
    }

    /** One slot of a directory: nothing more after a zero, else its entry if it is one. */
    method ReadSlot(sectors: seq<nat>, s: nat, i: nat, out: seq<Entry>, ghost all: seq<Entry>)
      returns (more: bool, now: seq<Entry>)
      requires s < |sectors| && i < 16 && FoundBefore(img, sectors, 16 * s + i, out, all)
      ensures if more then FoundBefore(img, sectors, 16 * s + (i + 1), now, all) else now == all
    {
      ScanStep(img, sectors, s, i, out, all);
      var e := sectors[s] * SECTOR_SIZE + i * 32;
      more, now := ByteAt(img, e) != 0, out;
      if more && !(ByteAt(img, e) == 0xE5 || ByteAt(img, e + 11) / 8 % 2 == 1) {
        now := out + [DecodeEntry(img, e)];
      }
    }

    /** The sixteen slots of a sector. */
    method ReadSector(sectors: seq<nat>, s: nat, found: seq<Entry>, ghost all: seq<Entry>)
      returns (more: bool, out: seq<Entry>)
      requires s < |sectors| && FoundBefore(img, sectors, 16 * s, found, all)
      ensures if more then FoundBefore(img, sectors, 16 * s + 16, out, all) else out == all
    {
      more, out := true, found;
      var i := 0;
      while more && i < 16
        invariant 0 <= i <= 16
        invariant if more then FoundBefore(img, sectors, 16 * s + i, out, all) else out == all
      {
        more, out := ReadSlot(sectors, s, i, out, all);
        i := i + 1;
      }
    }

    /** Live entries of the directory whose first cluster is `dir` (0: the root). */
    method Entries(dir: u16) returns (out: seq<Entry>)
      ensures out == EntriesOf(img, Vol(), dir)
    {
      var sectors := SectorList(dir);
      ghost var all := Scan(img, sectors, 0);
      out := [];
      for s := 0 to |sectors|
        invariant FoundBefore(img, sectors, 16 * s, out, all)
      {
        var more;
        more, out := ReadSector(sectors, s, out, all);
        if !more { return; }
      }
    }

    method FirstNamed(entries: seq<Entry>, part: Name) returns (r: Option<Entry>)
      ensures r == Named(entries, part)
    {
      var k := 0;
      assert entries[0..] == entries;
      while k < |entries|
        invariant 0 <= k <= |entries|
        invariant Named(entries, part) == Named(entries[k..], part)
      {
        if entries[k].name == part { return Some(entries[k]); }
        assert entries[k..][1..] == entries[k + 1..];
        k := k + 1;
      }
      return None;
    }

    /** Resolves an absolute path to its entry. */
    method Find(path: Bytes) returns (r: Option<Entry>)
      ensures r == FindPath(img, Vol(), path)
    {
      ghost var v := Vol();
      ghost var whole := FindPath(img, v, path);
      var dir: u16 := 0;
      var i := 0;
      var out := ROOT_ENTRY;
      assert path[0..] == path;
      while i < |path|
        invariant 0 <= i <= |path|
        invariant whole == Resolve(img, v, dir, Components(path[i..]), out)
      {
        i := SkipSlashes(path, i);
        if i >= |path| { break; }
        var j := i + IndexOf(path[i..], SLASH);
        var part := path[i..j];
        NextComponent(path, i);
        i := j;
        var entries := Entries(dir);
        var e := FirstNamed(entries, part);
        if e == None { return None; }
        out := e.value;
        dir := out.cluster;
      }
      return Some(out);
    }

    static method SkipSlashes(path: Bytes, from: nat) returns (i: nat)
      requires from <= |path|
      ensures from <= i <= |path|
      ensures i < |path| ==> path[i] != SLASH
      ensures Components(path[i..]) == Components(path[from..])
    {
      i := from;
      while i < |path| && path[i] == SLASH
        invariant from <= i <= |path|
        invariant Components(path[i..]) == Components(path[from..])
      {
        assert path[i..][1..] == path[i + 1..];
        i := i + 1;
      }
    }

    /** The sectors of one cluster, after those read before. */
    method ReadCluster(c: nat, before: Bytes, ghost read: seq<nat>) returns (out: Bytes)
      requires c >= 2 && before == SectorsBytes(img, read)
      ensures out == SectorsBytes(img, read + Range(ClusterLba(Vol(), c), secPerClus))
    {
      out := before;
      ghost var lba := ClusterLba(Vol(), c);
      assert read + Range(lba, 0) == read;
      for s := 0 to secPerClus
        invariant out == SectorsBytes(img, read + Range(lba, s))
      {
        SectorsOn(img, read, lba, s);
        out := out + SectorBytes(img, ClusterLba(Vol(), c) + s);
      }
    }

    /** A file's contents: its chain's sectors, cut to its size. */
    method Read(e: Entry) returns (out: Bytes)
      ensures out == ReadFile(img, Vol(), e)
    {
      out := [];
      var chain := Chain(e.cluster);
      for k := 0 to |chain|
        invariant out == SectorsBytes(img, SectorsOf(Vol(), chain[..k]))
      {
        out := ReadCluster(chain[k], out, SectorsOf(Vol(), chain[..k]));
        assert chain[..k + 1][..k] == chain[..k];
      }
      assert chain[..|chain|] == chain;
      if |out| > e.size { out := out[..e.size]; }
    }
  }
}
