/** The volumes on which the checker's walk does not end: an entry for a directory with first cluster 0
    sends it back to the root. */
module FatEndless {
  import opened Words
  import opened FatNames
  import opened FatFormat
  import opened FatReader
  import opened FatChecker

  /** A slot that sends the walk back to the root: a directory, with a name, whose first cluster is 0. */
  predicate SendsBack(img: Bytes, off: nat) {
    var e := DecodeEntry(img, off);
    InUse(img, off) && !IsDot(e.name) && e.attr == ATTR_DIRECTORY && e.cluster == 0
  }

  /** A slot the walk of the root passes without meeting a chain: a deleted one, or an empty file. */
  predicate PassedOver(img: Bytes, off: nat) {
    var e := DecodeEntry(img, off);
    || ByteAt(img, off) == 0xE5
    || (InUse(img, off) && !IsDot(e.name) && e.attr == ATTR_ARCHIVE && e.cluster == 0 && e.size == 0)
  }

  predicate LoopsAt(img: Bytes, sectors: seq<nat>, k: nat, n: nat) {
    && k <= n < 16 * |sectors|
    && SendsBack(img, EntryOffset(sectors, n))
    && forall j :: k <= j < n ==> PassedOver(img, EntryOffset(sectors, j))
  }

  ghost predicate Loops(img: Bytes, sectors: seq<nat>, k: nat) { exists n :: LoopsAt(img, sectors, k, n) }

  /** A directory with a chain of its own does not come back with nothing more used. */
  lemma DirUsesMore(img: Bytes, v: Volume, cluster: nat, parent: nat, used: set<nat>)
    ensures var r := WalkDir(img, v, cluster, parent, used);
            r != Restarts(used) && (r.Fine? ==> r.used != used)
  {
    ChainWalkSound(img, v, cluster, used);
    if ChainWalk(img, v, cluster, used).Some? {
      var chain := ChainWalk(img, v, cluster, used).value;
      assert chain[0] in Members(chain);
    }
  }

  /** Nor does any entry but an empty file and a directory with first cluster 0. */
  lemma EntryUsesMore(img: Bytes, v: Volume, e: Entry, used: set<nat>)
    ensures var r := WalkEntry(img, v, 0, e, used);
            && (r == Restarts(used) <==> e.attr == ATTR_DIRECTORY && e.cluster == 0)
            && (r.Fine? && r.used == used <==> e.attr != ATTR_DIRECTORY && e.cluster == 0 && e.size == 0)
  {
    if e.attr == ATTR_DIRECTORY {
      if e.cluster != 0 { DirUsesMore(img, v, e.cluster, 0, used); }
    } else if e.cluster != 0 {
      ChainWalkSound(img, v, e.cluster, used);
      if ChainWalk(img, v, e.cluster, used).Some? {
        var chain := ChainWalk(img, v, e.cluster, used).value;
        assert chain[0] in Members(chain);
      }
    }
  }

  /** What the first slot has to do with it. */
  lemma LoopsOn(img: Bytes, sectors: seq<nat>, k: nat)
    requires k < 16 * |sectors|
    ensures var off := EntryOffset(sectors, k);
            Loops(img, sectors, k) <==> SendsBack(img, off) || (PassedOver(img, off) && Loops(img, sectors, k + 1))
  {
    if SendsBack(img, EntryOffset(sectors, k)) {
      assert LoopsAt(img, sectors, k, k);
    } else if Loops(img, sectors, k) {
      var n :| LoopsAt(img, sectors, k, n);
      assert LoopsAt(img, sectors, k + 1, n);
    } else if PassedOver(img, EntryOffset(sectors, k)) && Loops(img, sectors, k + 1) {
      var n :| LoopsAt(img, sectors, k + 1, n);
      assert LoopsAt(img, sectors, k, n);
    }
  }

  /** One slot of such a walk. */
  lemma {:induction false} RestartStep(img: Bytes, v: Volume, sectors: seq<nat>, k: nat, used: set<nat>)
    requires k < 16 * |sectors|
    ensures var off := EntryOffset(sectors, k);
            (WalkSlots(img, v, 0, 0, sectors, k, used) == Restarts(used))
              <==> (SendsBack(img, off)
                    || (PassedOver(img, off) && WalkSlots(img, v, 0, 0, sectors, k + 1, used) == Restarts(used)))
  {
    var off := EntryOffset(sectors, k);
    var e := DecodeEntry(img, off);
    if InUse(img, off) && !IsDot(e.name) {
      EntryUsesMore(img, v, e, used);
      var one := WalkEntry(img, v, 0, e, used);
      if one.Fine? {
        FreeShrinks(v, used, one.used);
      }
    }
  }

  /** The walk of the root comes back with nothing used exactly when some slot sends it back and only
      deleted slots and empty files are before that. */
  lemma {:induction false} RestartsExactly(img: Bytes, v: Volume, sectors: seq<nat>, k: nat, used: set<nat>)
    requires k <= 16 * |sectors|
    ensures WalkSlots(img, v, 0, 0, sectors, k, used) == Restarts(used) <==> Loops(img, sectors, k)
    decreases 16 * |sectors| - k
  {
    if k < 16 * |sectors| {
      LoopsOn(img, sectors, k);
      RestartStep(img, v, sectors, k, used);
      RestartsExactly(img, v, sectors, k + 1, used);
    } else {
      NothingWalked(img, v, 0, 0, sectors, k, used);
    }
  }

  function RootRange(v: Volume): seq<nat> { Range(v.rootLba, v.rootEntries / 16) }

  /** The program's walk, cut off when it has gone back to the root n times. In the root the parent's number
      plays no part. */
  ghost function WalkedBack(img: Bytes, v: Volume, used: set<nat>, n: nat): Walked
    decreases n
  {
    var w := WalkSlots(img, v, 0, 0, RootRange(v), 0, used);
    if w.Restarts? && n > 0 then WalkedBack(img, v, w.seen, n - 1) else w
  }

  /** The checker's walk of a volume goes on for ever exactly when the root has a named directory with first
      cluster 0, before which there are only deleted slots and empty files. Else it ends after going back
      to the root once at most, and then with an error. */
  lemma EndlessExactly(img: Bytes, v: Volume)
    ensures Loops(img, RootRange(v), 0) <==> forall n :: WalkedBack(img, v, {}, n).Restarts?
    ensures !Loops(img, RootRange(v), 0) ==>
              forall n :: n > 0 ==> WalkedBack(img, v, {}, n) == if WalkVolume(img, v).Restarts? then Bad
                                                                 else WalkVolume(img, v)
  {
    var root, w := RootRange(v), WalkVolume(img, v);
    RestartsExactly(img, v, root, 0, {});
    if Loops(img, root, 0) {
      forall n
        ensures WalkedBack(img, v, {}, n).Restarts?
      {
        BackForEver(img, v, n);
      }
    } else if w.Restarts? {
      WalkedAgain(img, v, root, 0, {}, w.seen);
      assert !WalkedBack(img, v, {}, 1).Restarts?;
    } else {
      assert !WalkedBack(img, v, {}, 0).Restarts?;
    }
  }

  lemma {:induction false} BackForEver(img: Bytes, v: Volume, n: nat)
    requires WalkVolume(img, v) == Restarts({})
    ensures WalkedBack(img, v, {}, n) == Restarts({})
  {
    if n > 0 { BackForEver(img, v, n - 1); }
  }

  // ---- such a volume ----

  /** Two sectors: a boot sector for one root sector and no clusters, and a root directory whose one entry
      is a directory called A with first cluster 0. */
  function Looping(): (img: Bytes)
    ensures |img| == 1024
  {
    seq(1024, i requires i >= 0 => LoopingByte(i))
  }

  function LoopingByte(i: nat): byte {
    if i == 12 || i == 19 then 2
    else if i == 13 || i == 14 then 1
    else if i == 17 || i == 523 then 16
    else if i == 510 then 0x55
    else if i == 511 then 0xAA
    else if 512 <= i < 523 then ShortName([0x41])[i - 512]
    else 0
  }

  lemma NamedA()
    ensures ShortName([0x41])[0] == 0x41 && forall i :: 1 <= i < 11 ==> ShortName([0x41])[i] == SPACE
    ensures Dotted(ShortName([0x41])) == [0x41] && ValidField(ShortName([0x41]))
  {
    var name: Name := [0x41];
    assert IndexOf(name, DOT) == 1;
    assert BasePart(name) == name && ExtPart(name) == [];
    assert Storable(name);
    UpperRoundTrip(name);
    assert Upper(name) == name;
  }

  lemma LoopingLoops(img: Bytes, v: Volume)
    requires img == Looping() && Recognised(img) && img[13] != 0 && v == VolumeOf(img)
    ensures Loops(img, RootRange(v), 0)
  {
    NamedA();
    assert v.rootLba == 1 && v.rootEntries == 16;
    assert RootRange(v) == [1];
    assert EntryOffset([1], 0) == 512;
    assert Field11(img, 512) == ShortName([0x41]);
    assert LoopsAt(img, [1], 0, 0);
  }

  /** The reader takes that volume, and the checker's walk of it goes on for ever. */
  lemma LoopingNeverEnds(img: Bytes)
    requires img == Looping()
    ensures Recognised(img) && img[13] != 0
    ensures forall n :: WalkedBack(img, VolumeOf(img), {}, n).Restarts?
  {
    LoopingLoops(img, VolumeOf(img));
    EndlessExactly(img, VolumeOf(img));
  }
}
