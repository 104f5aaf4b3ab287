/** What it means that the checker accepts a volume, entry by entry: every entry in every directory that
    can be reached from the root is sound. */
module FatAccepted {
  import opened Words
  import opened FatNames
  import opened FatReader
  import opened FatChecker

  /** The sectors of a directory: the root's own, or those of its proper chain. */
  ghost predicate Lists(img: Bytes, v: Volume, dir: nat, sectors: seq<nat>) {
    if dir == 0 then sectors == Range(v.rootLba, v.rootEntries / 16)
    else exists chain :: ChainOf(img, v, dir, chain) && sectors == SectorsOf(v, chain)
  }

  ghost predicate ChainOf(img: Bytes, v: Volume, c: nat, chain: seq<nat>) {
    ProperChain(img, v, chain) && chain[0] == c && forall k :: 0 <= k < |chain| ==> chain[k] >= 2
  }

  /** Slot k is before the end of its directory and not deleted. */
  predicate Live(img: Bytes, sectors: seq<nat>, k: nat) {
    && k < 16 * |sectors| && ByteAt(img, EntryOffset(sectors, k)) != 0xE5
    && forall j :: 0 <= j <= k ==> ByteAt(img, EntryOffset(sectors, j)) != 0
  }

  function NameAt(img: Bytes, off: nat): Name { Dotted(Field11(img, off)) }

  function ClusterAt(img: Bytes, off: nat): int { ByteAt(img, off + 26) + 0x100 * ByteAt(img, off + 27) as int }

  function SizeAt(img: Bytes, off: nat): int {
    ByteAt(img, off + 28) + 0x100 * ByteAt(img, off + 29) as int + 0x1_0000 * ByteAt(img, off + 30) as int
    + 0x100_0000 * ByteAt(img, off + 31) as int
  }

  predicate IsDots(name: Name) { name == [0x2E] || name == [0x2E, 0x2E] }

  /** A directory that a slot of another one names. */
  ghost predicate Names(img: Bytes, v: Volume, dir: nat, c: nat) {
    exists sectors, k :: Lists(img, v, dir, sectors) && NamedBy(img, sectors, k, c)
  }

  predicate NamedBy(img: Bytes, sectors: seq<nat>, k: nat, c: nat) {
    && Live(img, sectors, k)
    && var off := EntryOffset(sectors, k);
       ByteAt(img, off + 11) == 0x10 && !IsDots(NameAt(img, off)) && ClusterAt(img, off) == c
  }

  /** A way down from the root, each directory named in the one before. */
  ghost predicate WayDown(img: Bytes, v: Volume, dirs: seq<nat>) {
    |dirs| > 0 && dirs[0] == 0 && forall i :: 0 <= i < |dirs| - 1 ==> Names(img, v, dirs[i], dirs[i + 1])
  }

  /** The characters of a name: printable, no small letters, and none of `"*+,/:;<=>?[\\]|`. */
  predicate NameChar(img: Bytes, at: nat) {
    var c := ByteAt(img, at);
    && 0x20 <= c <= 0x7E && !(0x61 <= c <= 0x7A) && c != 0x22 && !(0x2A <= c <= 0x2C) && c != 0x2F
    && !(0x3A <= c <= 0x3F) && !(0x5B <= c <= 0x5D) && c != 0x7C
  }

  /** An entry in slot k of a directory, whose parent is given, is sound: its name is one and it is marked as
      a directory or as a file; a dot entry is one of the first two of a directory other than the root, "."
      with that directory's cluster and ".." with its parent's; a directory has a chain; and a file has one
      that its size fits, or neither size nor cluster. */
  ghost predicate EntrySound(img: Bytes, v: Volume, off: nat, k: nat, dir: nat, parent: nat) {
    && ByteAt(img, off) != 0x20 && (forall at :: off <= at < off + 11 ==> NameChar(img, at))
    && (ByteAt(img, off + 11) == 0x10 || ByteAt(img, off + 11) == 0x20)
    && if NameAt(img, off) == [0x2E] then dir != 0 && k <= 1 && ClusterAt(img, off) == dir
       else if NameAt(img, off) == [0x2E, 0x2E] then dir != 0 && k <= 1 && ClusterAt(img, off) == parent
       else if ByteAt(img, off + 11) == 0x10 then Chained(img, v, ClusterAt(img, off), 0)
       else
         || (SizeAt(img, off) == 0 && ClusterAt(img, off) == 0)
         || Chained(img, v, ClusterAt(img, off), SizeAt(img, off))
  }

  /** There is a proper chain from a cluster on, with room for so many bytes. */
  ghost predicate Chained(img: Bytes, v: Volume, c: int, size: int) {
    exists chain :: c >= 2 && ChainOf(img, v, c, chain) && size <= |chain| * v.secPerClus * 512
  }

  // ---- every slot of an accepted volume ----

  /** The walk of a directory's slots from k on, taken without an error. */
  ghost predicate Walks(img: Bytes, v: Volume, dir: nat, parent: nat, sectors: seq<nat>, k: nat, used: set<nat>) {
    k <= 16 * |sectors| && WalkSlots(img, v, dir, parent, sectors, k, used).Fine?
  }

  /** What the walk found in a slot it did not stop before. */
  ghost predicate Passed(img: Bytes, v: Volume, dir: nat, parent: nat, off: nat, k: nat, used: set<nat>) {
    var e := DecodeEntry(img, off);
    WellFormed(img, off) && if IsDot(e.name) then DotOk(e, k, dir, parent) else WalkEntry(img, v, dir, e, used).Fine?
  }

  lemma {:induction false} WalkOn(img: Bytes, v: Volume, dir: nat, parent: nat, sectors: seq<nat>, k: nat,
                                  used: set<nat>) returns (more: set<nat>)
    requires k < 16 * |sectors| && Walks(img, v, dir, parent, sectors, k, used)
    requires ByteAt(img, EntryOffset(sectors, k)) != 0
    ensures Walks(img, v, dir, parent, sectors, k + 1, more)
    ensures ByteAt(img, EntryOffset(sectors, k)) != 0xE5 ==>
              Passed(img, v, dir, parent, EntryOffset(sectors, k), k, used)
  {
    var off := EntryOffset(sectors, k);
    var e := DecodeEntry(img, off);
    if ByteAt(img, off) == 0xE5 {
      WalkSkips(img, v, dir, parent, sectors, k, used);
      more := used;
    } else if IsDot(e.name) {
      WalkSkips(img, v, dir, parent, sectors, k, used);
      more := used;
      DotPassed(img, v, dir, parent, sectors, k, used);
    } else {
      var one := WalkTakes(img, v, dir, parent, sectors, k, used);
      more := one.used;
    }
  }

  lemma {:induction false} DotPassed(img: Bytes, v: Volume, dir: nat, parent: nat, sectors: seq<nat>, k: nat,
                                     used: set<nat>)
    requires k < 16 * |sectors| && Walks(img, v, dir, parent, sectors, k, used)
    requires ByteAt(img, EntryOffset(sectors, k)) != 0 && ByteAt(img, EntryOffset(sectors, k)) != 0xE5
    requires IsDot(DecodeEntry(img, EntryOffset(sectors, k)).name)
    ensures Passed(img, v, dir, parent, EntryOffset(sectors, k), k, used)
  {
  }

  /** The walk goes on to every slot before the end of the directory. */
  lemma {:induction false} WalkTo(img: Bytes, v: Volume, dir: nat, parent: nat, sectors: seq<nat>, k: nat,
                                  used: set<nat>, j: nat) returns (more: set<nat>)
    requires k <= j < 16 * |sectors| && Walks(img, v, dir, parent, sectors, k, used)
    requires forall i :: k <= i < j ==> ByteAt(img, EntryOffset(sectors, i)) != 0
    ensures Walks(img, v, dir, parent, sectors, j, more)
    decreases j - k
  {
    more := used;
    if k < j {
      more := WalkOn(img, v, dir, parent, sectors, k, used);
      more := WalkTo(img, v, dir, parent, sectors, k + 1, more, j);
    }
  }

  lemma {:induction false} SlotPassed(img: Bytes, v: Volume, dir: nat, parent: nat, sectors: seq<nat>,
                                      used: set<nat>, j: nat) returns (more: set<nat>)
    requires Live(img, sectors, j) && Walks(img, v, dir, parent, sectors, 0, used)
    ensures Passed(img, v, dir, parent, EntryOffset(sectors, j), j, more)
  {
    more := WalkTo(img, v, dir, parent, sectors, 0, used, j);
    var after := WalkOn(img, v, dir, parent, sectors, j, more);
  }

  lemma CharIs(img: Bytes, off: nat, i: nat)
    requires i < 11
    ensures var c := Field11(img, off)[i];
            NameChar(img, off + i) <==> 0x20 <= c <= 0x7E && !(0x61 <= c <= 0x7A) && !Forbidden(c)
  {
  }

  /** What the checker takes for an entry. */
  lemma WellFormedIs(img: Bytes, off: nat)
    ensures WellFormed(img, off)
       <==> ByteAt(img, off) != 0x20 && (forall at :: off <= at < off + 11 ==> NameChar(img, at))
            && (ByteAt(img, off + 11) == 0x10 || ByteAt(img, off + 11) == 0x20)
  {
    var f := Field11(img, off);
    assert f[0] == ByteAt(img, off + 0);
    if forall at :: off <= at < off + 11 ==> NameChar(img, at) {
      forall i | 0 <= i < 11
        ensures 0x20 <= f[i] <= 0x7E && !(0x61 <= f[i] <= 0x7A) && !Forbidden(f[i])
      {
        CharIs(img, off, i);
      }
    }
    if ValidField(f) {
      forall at | off <= at < off + 11
        ensures NameChar(img, at)
      {
        CharIs(img, off, at - off);
        assert 0x20 <= f[at - off] <= 0x7E;
      }
    }
  }

  lemma {:induction false} WalkedChain(img: Bytes, v: Volume, c: nat, used: set<nat>)
    requires ChainWalk(img, v, c, used).Some?
    ensures c >= 2 && ChainOf(img, v, c, ChainWalk(img, v, c, used).value)
  {
    ChainWalkSound(img, v, c, used);
    var chain := ChainWalk(img, v, c, used).value;
    assert forall k :: 0 <= k < |chain| ==> IsCluster(v, chain[k]);
  }

  lemma {:induction false} PassedIsSound(img: Bytes, v: Volume, dir: nat, parent: nat, off: nat, k: nat,
                                         used: set<nat>)
    requires Passed(img, v, dir, parent, off, k, used)
    ensures EntrySound(img, v, off, k, dir, parent)
  {
    var e := DecodeEntry(img, off);
    WellFormedIs(img, off);
    if !IsDot(e.name) {
      EntryChained(img, v, dir, e, used);
    }
  }

  lemma {:induction false} EntryChained(img: Bytes, v: Volume, dir: nat, e: Entry, used: set<nat>)
    requires WalkEntry(img, v, dir, e, used).Fine?
    ensures e.attr == 0x10 ==> Chained(img, v, e.cluster, 0)
    ensures e.attr != 0x10 ==> (e.size == 0 && e.cluster == 0) || Chained(img, v, e.cluster, e.size)
  {
    if e.attr == 0x10 || e.cluster != 0 {
      WalkedChain(img, v, e.cluster, used);
      assert 0 <= |ChainWalk(img, v, e.cluster, used).value| * v.secPerClus * 512;
    }
  }

  /** A chain is what its first cluster leads to. */
  lemma {:induction false} OneChain(img: Bytes, v: Volume, a: seq<nat>, b: seq<nat>)
    requires ProperChain(img, v, a) && ProperChain(img, v, b) && a[0] == b[0]
    ensures a == b
    decreases |a|
  {
    assert |a| > 1 ==> LinksOn(img, v, a, 0);
    assert |b| > 1 ==> LinksOn(img, v, b, 0);
    if |a| > 1 && |b| > 1 {
      ProperChainTail(img, v, a);
      ProperChainTail(img, v, b);
      OneChain(img, v, a[1..], b[1..]);
      assert a == [a[0]] + a[1..] && b == [b[0]] + b[1..];
    } else {
      assert |a| == 1 && |b| == 1;
    }
  }

  /** A directory named in one that was walked was walked too. */
  lemma {:induction false} Below(img: Bytes, v: Volume, dir: nat, parent: nat, sectors: seq<nat>, k: nat, c: nat,
                                 inner: seq<nat>, used: set<nat>) returns (more: set<nat>)
    requires Walks(img, v, dir, parent, sectors, 0, used) && NamedBy(img, sectors, k, c) && Lists(img, v, c, inner)
    ensures c != 0 && Walks(img, v, c, dir, inner, 0, more)
  {
    var u := SlotPassed(img, v, dir, parent, sectors, used, k);
    var e := DecodeEntry(img, EntryOffset(sectors, k));
    assert WalkEntry(img, v, dir, e, u).Fine? && e.cluster == c;
    assert WalkDir(img, v, c, dir, u).Fine?;
    WalkedChain(img, v, c, u);
    var chain := ChainWalk(img, v, c, u).value;
    var other :| ChainOf(img, v, c, other) && inner == SectorsOf(v, other);
    OneChain(img, v, chain, other);
    WalkDirUnfolds(img, v, c, dir, u);
    more := u + Members(chain);
  }

  /** The directory before the last on a way down; the root's parent is the root. */
  function ParentOn(dirs: seq<nat>): nat { if |dirs| > 1 then dirs[|dirs| - 2] else 0 }

  lemma {:induction false} AllWalked(img: Bytes, v: Volume, dirs: seq<nat>, sectors: seq<nat>) returns (used: set<nat>)
    requires WalkVolume(img, v).Fine? && WayDown(img, v, dirs) && Lists(img, v, dirs[|dirs| - 1], sectors)
    ensures Walks(img, v, dirs[|dirs| - 1], ParentOn(dirs), sectors, 0, used)
    decreases |dirs|
  {
    if |dirs| == 1 {
      used := {};
    } else {
      var n := |dirs| - 1;
      var above := dirs[..n];
      assert Names(img, v, dirs[n - 1], dirs[n]);
      var outer, k :| Lists(img, v, dirs[n - 1], outer) && NamedBy(img, outer, k, dirs[n]);
      assert WayDown(img, v, above) by {
        forall i | 0 <= i < |above| - 1
          ensures Names(img, v, above[i], above[i + 1])
        {
          assert Names(img, v, dirs[i], dirs[i + 1]);
        }
      }
      var u := AllWalked(img, v, above, outer);
      used := Below(img, v, dirs[n - 1], ParentOn(above), outer, k, dirs[n], sectors, u);
    }
  }

  /** In a volume the checker accepts, every entry of every directory that can be reached from the root,
      however deep, is sound. */
  lemma {:induction false} AcceptedIsSound(img: Bytes, v: Volume, dirs: seq<nat>, sectors: seq<nat>, k: nat)
    requires WalkVolume(img, v).Fine? && WayDown(img, v, dirs) && Lists(img, v, dirs[|dirs| - 1], sectors)
    requires Live(img, sectors, k)
    ensures EntrySound(img, v, EntryOffset(sectors, k), k, dirs[|dirs| - 1], ParentOn(dirs))
  {
    var used := AllWalked(img, v, dirs, sectors);
    var more := SlotPassed(img, v, dirs[|dirs| - 1], ParentOn(dirs), sectors, used, k);
    PassedIsSound(img, v, dirs[|dirs| - 1], ParentOn(dirs), EntryOffset(sectors, k), k, more);
  }
}
