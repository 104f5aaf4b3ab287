/** Every volume the writer builds passes the consistency checker: each cluster handed out is in
    exactly one chain, and nothing is lost. */
module FatConsistency {
  import opened Words
  import opened FatGeometry
  import opened FatTree
  import opened FatFormat
  import opened FatReader
  import opened FatRoundTrip
  import opened FatChecker

  // ---- which clusters are under an item ----

  /** Extent `k` belongs to the item, or to something in the directory it stands for. */
  predicate Under(p: Plan, k: int, x: Item)
    requires TreeOk(p.tree) && forall i :: 0 <= i < |p.spots| ==> p.spots[i].dir < |p.tree|
  {
    var n := |p.tree| - 1;
    && 0 <= k < n + |p.spots|
    && match x
       case SubDir(c) => OnPath(p.tree, c, if k < n then k + 1 else p.spots[k - n].dir)
       case FileAt(i) => k == n + i
  }

  ghost predicate IsUnder(p: Plan, lens: seq<nat>, c: nat, x: Item)
    requires TreeOk(p.tree) && forall i :: 0 <= i < |p.spots| ==> p.spots[i].dir < |p.tree|
  {
    exists k :: InExtent(lens, k, c) && Under(p, k, x)
  }

  ghost function ClustersUnder(p: Plan, lens: seq<nat>, x: Item): set<nat>
    requires TreeOk(p.tree) && forall i :: 0 <= i < |p.spots| ==> p.spots[i].dir < |p.tree|
  {
    set c: nat | c < Start(lens, |lens|) && IsUnder(p, lens, c, x)
  }

  /** The clusters under the items of a list from number `j` on. */
  ghost function RestUnder(p: Plan, lens: seq<nat>, items: seq<Item>, j: nat): set<nat>
    requires TreeOk(p.tree) && forall i :: 0 <= i < |p.spots| ==> p.spots[i].dir < |p.tree|
    requires j <= |items|
    decreases |items| - j
  {
    if j == |items| then {} else ClustersUnder(p, lens, items[j]) + RestUnder(p, lens, items, j + 1)
  }

  /** A plan whose directories, spots and lists go together. */
  ghost predicate Sound(p: Plan, lens: seq<nat>) {
    && Listed(p) && Shaped(p, lens) && NamesOk(p)
    && forall i :: 0 <= i < |p.spots| ==> p.spots[i].dir < |p.tree|
  }

  lemma {:induction false} ExtentUnique(lens: seq<nat>, j: nat, k: nat, c: nat)
    requires InExtent(lens, j, c) && InExtent(lens, k, c)
    ensures j == k
  {
    if j < k { SumMonotone(lens, j + 1, k); }
    if k < j { SumMonotone(lens, k + 1, j); }
  }

  lemma {:induction false} OnPathSmaller(t: Tree, a: nat, d: nat)
    requires TreeOk(t) && d < |t| && OnPath(t, a, d)
    ensures a <= d
    decreases d
  {
    if a != d { OnPathSmaller(t, a, t[d].parent); }
  }

  /** Of two directories on one path, one is on the path of the other. */
  lemma {:induction false} OnePath(t: Tree, a: nat, b: nat, e: nat)
    requires TreeOk(t) && e < |t| && OnPath(t, a, e) && OnPath(t, b, e)
    ensures a < |t| && b < |t| && (OnPath(t, a, b) || OnPath(t, b, a))
    decreases e
  {
    OnPathSmaller(t, a, e);
    OnPathSmaller(t, b, e);
    if a != e && b != e { OnePath(t, a, b, t[e].parent); }
  }

  lemma {:induction false} SiblingsApart(t: Tree, a: nat, b: nat, e: nat)
    requires TreeOk(t) && e < |t| && 0 < a < |t| && 0 < b < |t| && t[a].parent == t[b].parent
    requires OnPath(t, a, e) && OnPath(t, b, e)
    ensures a == b
  {
    OnePath(t, a, b, e);
    if a != b {
      if OnPath(t, a, b) { OnPathSmaller(t, a, t[b].parent); } else { OnPathSmaller(t, b, t[a].parent); }
    }
  }

  /** No cluster is under two items of one directory. */
  lemma {:induction false} ItemsApart(p: Plan, lens: seq<nat>, d: nat, x: Item, y: Item)
    requires Sound(p, lens) && d < |p.tree|
    requires Belongs(p.tree, p.spots, d, x) && Belongs(p.tree, p.spots, d, y) && x != y
    ensures ClustersUnder(p, lens, x) !! ClustersUnder(p, lens, y)
  {
    forall c | c in ClustersUnder(p, lens, x) && c in ClustersUnder(p, lens, y)
      ensures false
    {
      assert IsUnder(p, lens, c, x) && IsUnder(p, lens, c, y);
      var j :| InExtent(lens, j, c) && Under(p, j, x);
      var k :| InExtent(lens, k, c) && Under(p, k, y);
      ExtentUnique(lens, j, k, c);
      UnderOne(p, d, x, y, k);
    }
  }

  lemma {:induction false} UnderOne(p: Plan, d: nat, x: Item, y: Item, k: nat)
    requires TreeOk(p.tree) && forall i :: 0 <= i < |p.spots| ==> p.spots[i].dir < |p.tree|
    requires Belongs(p.tree, p.spots, d, x) && Belongs(p.tree, p.spots, d, y)
    requires Under(p, k, x) && Under(p, k, y)
    ensures x == y
  {
    var n := |p.tree| - 1;
    var e := if k < n then k + 1 else p.spots[k - n].dir;
    match (x, y) {
      case (SubDir(a), SubDir(b)) => SiblingsApart(p.tree, a, b, e);
      case (SubDir(a), FileAt(i)) => OnPathSmaller(p.tree, a, e);
      case (FileAt(i), SubDir(b)) => OnPathSmaller(p.tree, b, e);
      case (FileAt(i), FileAt(j)) =>
    }
  }

  lemma {:induction false} RestApart(p: Plan, lens: seq<nat>, d: nat, j: nat, x: Item)
    requires Sound(p, lens) && d < |p.tree| && j <= |p.items[d]|
    requires Belongs(p.tree, p.spots, d, x) && forall k :: j <= k < |p.items[d]| ==> p.items[d][k] != x
    ensures ClustersUnder(p, lens, x) !! RestUnder(p, lens, p.items[d], j)
    decreases |p.items[d]| - j
  {
    if j < |p.items[d]| {
      ItemIsListed(p, d, j);
      ItemsApart(p, lens, d, x, p.items[d][j]);
      RestApart(p, lens, d, j + 1, x);
    }
  }

  lemma {:induction false} InRest(p: Plan, lens: seq<nat>, items: seq<Item>, j: nat, c: nat)
    requires TreeOk(p.tree) && (forall i :: 0 <= i < |p.spots| ==> p.spots[i].dir < |p.tree|) && j <= |items|
    ensures c in RestUnder(p, lens, items, j) <==> exists k :: j <= k < |items| && c in ClustersUnder(p, lens, items[k])
    decreases |items| - j
  {
    if j < |items| { InRest(p, lens, items, j + 1, c); }
  }

  /** The directory in `a` on the way to `e`. */
  lemma {:induction false} ChildTowards(t: Tree, a: nat, e: nat) returns (x: nat)
    requires TreeOk(t) && e < |t| && OnPath(t, a, e) && a != e
    ensures 0 < x < |t| && t[x].parent == a && OnPath(t, x, e)
    decreases e
  {
    if t[e].parent == a {
      x := e;
    } else {
      x := ChildTowards(t, a, t[e].parent);
    }
  }

  lemma {:induction false} OnPathTransitive(t: Tree, a: nat, b: nat, e: nat)
    requires TreeOk(t) && e < |t| && b < |t| && OnPath(t, a, b) && OnPath(t, b, e)
    ensures OnPath(t, a, e)
    decreases e
  {
    if b != e { OnPathTransitive(t, a, b, t[e].parent); }
  }

  ghost function ExtentClusters(lens: seq<nat>, k: nat): set<nat>
    requires k < |lens|
  {
    set c: nat | c < Start(lens, |lens|) && InExtent(lens, k, c)
  }

  /** What is under an item of directory `d` is under `d`, and the other way round: everything
      under `d` but its own extent is under one of its items. */
  lemma {:induction false} UnderItem(p: Plan, d: nat, k: nat) returns (x: Item)
    requires Listed(p) && d < |p.tree| && forall i :: 0 <= i < |p.spots| ==> p.spots[i].dir < |p.tree|
    requires k < |p.tree| - 1 + |p.spots| && k + 1 != d
    requires OnPath(p.tree, d, if k < |p.tree| - 1 then k + 1 else p.spots[k - (|p.tree| - 1)].dir)
    ensures Belongs(p.tree, p.spots, d, x) && Under(p, k, x)
  {
    var n := |p.tree| - 1;
    var e := if k < n then k + 1 else p.spots[k - n].dir;
    if e == d {
      x := FileAt(k - n);
    } else {
      var c := ChildTowards(p.tree, d, e);
      x := SubDir(c);
    }
  }

  lemma {:induction false} UnderParent(p: Plan, d: nat, x: Item, k: nat)
    requires TreeOk(p.tree) && d < |p.tree| && forall i :: 0 <= i < |p.spots| ==> p.spots[i].dir < |p.tree|
    requires Belongs(p.tree, p.spots, d, x) && Under(p, k, x)
    ensures OnPath(p.tree, d, if k < |p.tree| - 1 then k + 1 else p.spots[k - (|p.tree| - 1)].dir)
    ensures k + 1 != d || k >= |p.tree| - 1
  {
    var e := if k < |p.tree| - 1 then k + 1 else p.spots[k - (|p.tree| - 1)].dir;
    match x
    case SubDir(c) =>
      assert OnPath(p.tree, d, c);
      OnPathTransitive(p.tree, d, c, e);
      OnPathSmaller(p.tree, c, e);
    case FileAt(i) =>
  }

  /** The clusters under a directory are its own and those under its items. */
  lemma {:induction false} DirectoryClusters(p: Plan, lens: seq<nat>, d: nat)
    requires Sound(p, lens) && 0 < d < |p.tree|
    ensures ClustersUnder(p, lens, SubDir(d)) == ExtentClusters(lens, d - 1) + RestUnder(p, lens, p.items[d], 0)
    ensures ExtentClusters(lens, d - 1) !! RestUnder(p, lens, p.items[d], 0)
  {
    var rest := RestUnder(p, lens, p.items[d], 0);
    forall c: nat
      ensures c in ClustersUnder(p, lens, SubDir(d)) ==> c in ExtentClusters(lens, d - 1) || c in rest
      ensures c in rest ==> c in ClustersUnder(p, lens, SubDir(d)) && c !in ExtentClusters(lens, d - 1)
    {
      InRest(p, lens, p.items[d], 0, c);
      if c in ClustersUnder(p, lens, SubDir(d)) {
        assert IsUnder(p, lens, c, SubDir(d));
        var k :| InExtent(lens, k, c) && Under(p, k, SubDir(d));
        if k != d - 1 {
          var x := UnderItem(p, d, k);
          var j := PositionOf(p, d, x);
          assert IsUnder(p, lens, c, p.items[d][j]);
        }
      }
      if c in rest {
        var j :| 0 <= j < |p.items[d]| && c in ClustersUnder(p, lens, p.items[d][j]);
        RestIsUnder(p, lens, d, j, c);
      }
    }
    forall c | c in ExtentClusters(lens, d - 1)
      ensures c in ClustersUnder(p, lens, SubDir(d))
    {
      assert InExtent(lens, d - 1, c) && Under(p, d - 1, SubDir(d));
      assert IsUnder(p, lens, c, SubDir(d));
    }
  }

  lemma {:induction false} RestIsUnder(p: Plan, lens: seq<nat>, d: nat, j: nat, c: nat)
    requires Sound(p, lens) && 0 < d < |p.tree| && j < |p.items[d]|
    requires c in ClustersUnder(p, lens, p.items[d][j])
    ensures c in ClustersUnder(p, lens, SubDir(d)) && c !in ExtentClusters(lens, d - 1)
  {
    assert IsUnder(p, lens, c, p.items[d][j]);
    var k :| InExtent(lens, k, c) && Under(p, k, p.items[d][j]);
    ItemIsListed(p, d, j);
    UnderParent(p, d, p.items[d][j], k);
    assert IsUnder(p, lens, c, SubDir(d));
    if c in ExtentClusters(lens, d - 1) { ExtentUnique(lens, d - 1, k, c); }
  }

  /** Every cluster handed out is under some item of the root. */
  lemma {:induction false} RootClusters(p: Plan, lens: seq<nat>)
    requires Sound(p, lens)
    ensures forall c: nat :: c in RestUnder(p, lens, p.items[0], 0) <==> 2 <= c < Start(lens, |lens|)
  {
    forall c: nat
      ensures c in RestUnder(p, lens, p.items[0], 0) <==> 2 <= c < Start(lens, |lens|)
    {
      InRest(p, lens, p.items[0], 0, c);
      if 2 <= c < Start(lens, |lens|) {
        var k := ExtentHolding(lens, c, |lens|);
        RootOnPath(p.tree, if k < |p.tree| - 1 then k + 1 else p.spots[k - (|p.tree| - 1)].dir);
        var x := UnderItem(p, 0, k);
        var j := PositionOf(p, 0, x);
        assert IsUnder(p, lens, c, p.items[0][j]);
      }
    }
  }

  lemma {:induction false} RootOnPath(t: Tree, e: nat)
    requires TreeOk(t) && e < |t|
    ensures OnPath(t, 0, e)
    decreases e
  {
    if e != 0 { RootOnPath(t, t[e].parent); }
  }

  // ---- the walk over a built volume ----

  ghost predicate FilesSeen(img: Bytes, v: Volume, p: Plan, lens: seq<nat>)
    requires Shaped(p, lens)
  {
    forall i :: 0 <= i < |p.files| ==> FileSeen(img, v, p, lens, i)
  }

  /** An extent's clusters are a proper chain, and the walk finds it when none is used. */
  lemma {:induction false} WalkExtent(img: Bytes, v: Volume, lens: seq<nat>, k: nat, used: set<nat>)
    requires LinksSeen(img, v, lens) && k < |lens| && lens[k] > 0
    requires ExtentClusters(lens, k) !! used
    ensures ChainWalk(img, v, Start(lens, k), used) == Some(Range(Start(lens, k), lens[k]))
    ensures Members(Range(Start(lens, k), lens[k])) == ExtentClusters(lens, k)
  {
    ExtentBounds(lens, k);
    var chain := Range(Start(lens, k), lens[k]);
    forall c | c in ExtentClusters(lens, k)
      ensures c in Members(chain)
    {
      assert chain[c - Start(lens, k)] == c;
    }
    forall j | 0 <= j < |chain| - 1
      ensures LinksOn(img, v, chain, j)
    {
      LinkInExtent(img, v, lens, k, chain[j]);
    }
    LinkInExtent(img, v, lens, k, chain[|chain| - 1]);
    ChainWalkComplete(img, v, chain, used);
  }

  lemma {:induction false} LinkInExtent(img: Bytes, v: Volume, lens: seq<nat>, k: nat, c: nat)
    requires LinksSeen(img, v, lens) && InExtent(lens, k, c)
    ensures FatEntry(img, v, c, 0) == NextInExtent(lens, k, c)
    ensures 2 <= c < v.clusters + 2 && c < 0xFFF6
  {
    ExtentBounds(lens, k);
    assert LinkOk(lens, c, FatEntry(img, v, c, 0));
  }

  /** The entry in a slot is the one for item `x`, and the walk looks at it. */
  predicate ShowsItem(img: Bytes, off: nat, p: Plan, lens: seq<nat>, x: Item) {
    && Shaped(p, lens) && (if x.SubDir? then x.dir < |p.tree| else x.index < |p.files|)
    && DecodeEntry(img, off) == EntryFor(p, lens, x)
    && !IsDot(DecodeEntry(img, off).name)
    && InUse(img, off)
  }

  lemma RoomForSlot(n: nat, k: nat, count: nat)
    requires k < n && 32 * n <= count * SECTOR_SIZE
    ensures k < 16 * count
  {
  }

  lemma {:induction false} ItemSlotIs(p: Plan, lens: seq<nat>, d: nat, j: nat, k: nat)
    requires Shaped(p, lens) && d < |p.tree| && ItemsInRange(p.files, p.tree, p.items[d]) && j < |p.items[d]|
    requires k == DotEntries(d) + j
    ensures k < |SlotsIn(p, lens, d)|
    ensures SlotsIn(p, lens, d)[k] == ItemSlot(p.files, p.tree, p.spots, lens, p.items[d][j])
  {
    SlotAt(p, lens, d, k);
  }

  lemma {:induction false} StoredSlot(img: Bytes, v: Volume, p: Plan, lens: seq<nat>, d: nat, k: nat)
    requires Shaped(p, lens) && d < |p.tree| && DirSeen(img, v, p, lens, d) && k < |SlotsIn(p, lens, d)|
    ensures k < 16 * DirSectorCount(v, lens, d)
    ensures At(img, DirLba(v, lens, d) * SECTOR_SIZE + 32 * k, SlotBytes(SlotsIn(p, lens, d)[k]))
  {
    RoomForSlot(|SlotsIn(p, lens, d)|, k, DirSectorCount(v, lens, d));
  }

  /** The slot of item `j` of directory `d` is stored. */
  lemma {:induction false} ItemSlotAt(img: Bytes, v: Volume, p: Plan, lens: seq<nat>, d: nat, j: nat, k: nat)
    requires Shaped(p, lens) && d < |p.tree| && DirSeen(img, v, p, lens, d) && j < |p.items[d]|
    requires k == DotEntries(d) + j
    ensures k < 16 * DirSectorCount(v, lens, d)
    ensures At(img, DirLba(v, lens, d) * SECTOR_SIZE + 32 * k,
               SlotBytes(ItemSlot(p.files, p.tree, p.spots, lens, p.items[d][j])))
  {
    ItemSlotIs(p, lens, d, j, k);
    StoredSlot(img, v, p, lens, d, k);
  }

  /** And it is where the reader looks for it. */
  lemma {:induction false} ItemSlotStored(img: Bytes, v: Volume, p: Plan, lens: seq<nat>, d: nat, j: nat)
    requires Shaped(p, lens) && d < |p.tree| && DirSeen(img, v, p, lens, d) && j < |p.items[d]|
    ensures DotEntries(d) + j < 16 * DirSectorCount(v, lens, d)
    ensures At(img, EntryOffset(Range(DirLba(v, lens, d), DirSectorCount(v, lens, d)), DotEntries(d) + j),
               SlotBytes(ItemSlot(p.files, p.tree, p.spots, lens, p.items[d][j])))
  {
    var k := DotEntries(d) + j;
    ItemSlotAt(img, v, p, lens, d, j, k);
    OffsetInRun(DirLba(v, lens, d), DirSectorCount(v, lens, d), k);
  }

  /** Reading that slot shows the item. */
  lemma {:induction false} ItemSlotSeen(img: Bytes, v: Volume, p: Plan, lens: seq<nat>, d: nat, j: nat)
    requires Shaped(p, lens) && d < |p.tree| && DirSeen(img, v, p, lens, d) && j < |p.items[d]| && NamesOkIn(p, d)
    ensures DotEntries(d) + j < 16 * DirSectorCount(v, lens, d)
    ensures ShowsItem(img, EntryOffset(Range(DirLba(v, lens, d), DirSectorCount(v, lens, d)), DotEntries(d) + j),
                      p, lens, p.items[d][j])
  {
    ItemSlotStored(img, v, p, lens, d, j);
    ItemReadBack(img, EntryOffset(Range(DirLba(v, lens, d), DirSectorCount(v, lens, d)), DotEntries(d) + j), p, lens,
                 p.items[d][j]);
  }

  lemma {:induction false} ItemReadBack(img: Bytes, off: nat, p: Plan, lens: seq<nat>, x: Item)
    requires Shaped(p, lens) && ReadsBack(p, x)
    requires At(img, off, SlotBytes(ItemSlot(p.files, p.tree, p.spots, lens, x)))
    ensures ShowsItem(img, off, p, lens, x)
  {
    var slot := ItemSlot(p.files, p.tree, p.spots, lens, x);
    SlotReadBack(img, off, slot);
    FieldReadBack(img, off, slot);
    assert slot.field == FieldOf(p, x);
  }

  lemma {:induction false} FieldReadBack(img: Bytes, off: nat, s: Slot)
    requires SlotOk(s) && At(img, off, SlotBytes(s))
    ensures Field11(img, off) == s.field
  {
    var b := SlotBytes(s);
    assert b[..11] == s.field;
    forall i | 0 <= i < 11
      ensures Field11(img, off)[i] == s.field[i]
    {
      assert img[off + i] == img[off..off + 32][i] == b[i] == b[..11][i];
    }
  }

  /** The two dot slots of a directory are as the checker wants them. */
  lemma {:induction false} DotSlotSeen(img: Bytes, v: Volume, p: Plan, lens: seq<nat>, d: nat, k: nat)
    requires Sound(p, lens) && 0 < d < |p.tree| && DirSeen(img, v, p, lens, d) && LinksSeen(img, v, lens) && k < 2
    ensures k < 16 * DirSectorCount(v, lens, d)
    ensures var off := EntryOffset(Range(DirLba(v, lens, d), DirSectorCount(v, lens, d)), k);
            && IsDot(DecodeEntry(img, off).name)
            && DotOk(DecodeEntry(img, off), k, DirCluster(p.tree, lens, d), DirCluster(p.tree, lens, p.tree[d].parent))
            && InUse(img, off)
  {
    OffsetInRun(DirLba(v, lens, d), DirSectorCount(v, lens, d), k);
    var off := DirLba(v, lens, d) * SECTOR_SIZE + 32 * k;
    SlotAt(p, lens, d, k);
    var slot := DotSlots(p.tree, lens, d)[k];
    assert SlotsIn(p, lens, d)[k] == slot;
    assert At(img, off, SlotBytes(slot));
    SlotReadBack(img, off, slot);
    FieldReadBack(img, off, slot);
    DotNamesReadBack();
    DirClusterSmall(v, p, lens, d);
    DirClusterSmall(v, p, lens, p.tree[d].parent);
  }

  /** Walking on from item `j` of a directory uses exactly the clusters under the items left. */
  lemma {:induction false} WalkItems(img: Bytes, v: Volume, p: Plan, lens: seq<nat>, d: nat, j: nat, parent: nat,
                                     used: set<nat>)
    requires Sound(p, lens) && Seen(img, v, p, lens) && FilesSeen(img, v, p, lens)
    requires d < |p.tree| && j <= |p.items[d]|
    requires RestUnder(p, lens, p.items[d], j) !! used
    ensures DotEntries(d) + j <= 16 * DirSectorCount(v, lens, d)
    ensures var r := WalkSlots(img, v, DirCluster(p.tree, lens, d), parent,
                               Range(DirLba(v, lens, d), DirSectorCount(v, lens, d)), DotEntries(d) + j, used);
            r.Fine? && r.used == used + RestUnder(p, lens, p.items[d], j)
    decreases |p.tree| - d, |p.items[d]| - j
  {
    assert DirSeen(img, v, p, lens, d);
    var cluster, sectors := DirCluster(p.tree, lens, d), Range(DirLba(v, lens, d), DirSectorCount(v, lens, d));
    var k := DotEntries(d) + j;
    if j == |p.items[d]| {
      if k < 16 * |sectors| {
        OffsetInRun(DirLba(v, lens, d), |sectors|, k);
        assert img[DirLba(v, lens, d) * SECTOR_SIZE + 32 * k] == 0;
      }
      NothingWalked(img, v, cluster, parent, sectors, k, used);
    } else {
      var x := p.items[d][j];
      assert NamesOkIn(p, d);
      ItemSlotSeen(img, v, p, lens, d, j);
      ItemIsListed(p, d, j);
      WalkItem(img, v, p, lens, d, x, used);
      RestStaysApart(p, lens, d, j, used);
      WalkItems(img, v, p, lens, d, j + 1, parent, used + ClustersUnder(p, lens, x));
      WalkOverItem(img, v, p, lens, cluster, parent, sectors, k, x, used, RestUnder(p, lens, p.items[d], j + 1));
    }
  }

  lemma {:induction false} WalkOverItem(img: Bytes, v: Volume, p: Plan, lens: seq<nat>, cluster: nat, parent: nat,
                                        sectors: seq<nat>, k: nat, x: Item, used: set<nat>, rest: set<nat>)
    requires TreeOk(p.tree) && forall i :: 0 <= i < |p.spots| ==> p.spots[i].dir < |p.tree|
    requires k < 16 * |sectors| && ShowsItem(img, EntryOffset(sectors, k), p, lens, x)
    requires WalkEntry(img, v, cluster, EntryFor(p, lens, x), used).Fine?
    requires WalkEntry(img, v, cluster, EntryFor(p, lens, x), used).used == used + ClustersUnder(p, lens, x)
    requires WalkSlots(img, v, cluster, parent, sectors, k + 1, used + ClustersUnder(p, lens, x)).Fine?
    requires WalkSlots(img, v, cluster, parent, sectors, k + 1, used + ClustersUnder(p, lens, x)).used
          == used + ClustersUnder(p, lens, x) + rest
    ensures WalkSlots(img, v, cluster, parent, sectors, k, used).Fine?
    ensures WalkSlots(img, v, cluster, parent, sectors, k, used).used == used + (ClustersUnder(p, lens, x) + rest)
  {
    WalkPastEntry(img, v, cluster, parent, sectors, k, used);
  }

  lemma {:induction false} RestStaysApart(p: Plan, lens: seq<nat>, d: nat, j: nat, used: set<nat>)
    requires Sound(p, lens) && d < |p.tree| && j < |p.items[d]|
    requires RestUnder(p, lens, p.items[d], j) !! used
    ensures RestUnder(p, lens, p.items[d], j + 1) !! used + ClustersUnder(p, lens, p.items[d][j])
  {
    ItemIsListed(p, d, j);
    assert ListsExactly(p.tree, p.spots, d, p.items[d]);
    RestApart(p, lens, d, j + 1, p.items[d][j]);
  }

  /** Walking one item uses exactly the clusters under it. */
  lemma {:induction false} WalkItem(img: Bytes, v: Volume, p: Plan, lens: seq<nat>, d: nat, x: Item, used: set<nat>)
    requires Sound(p, lens) && Seen(img, v, p, lens) && FilesSeen(img, v, p, lens)
    requires d < |p.tree| && Belongs(p.tree, p.spots, d, x)
    requires ClustersUnder(p, lens, x) !! used
    ensures var r := WalkEntry(img, v, DirCluster(p.tree, lens, d), EntryFor(p, lens, x), used);
            r.Fine? && r.used == used + ClustersUnder(p, lens, x)
    decreases |p.tree| - d, 0
  {
    match x
    case SubDir(c) =>
      DirClusterSmall(v, p, lens, c);
      WalkDirectory(img, v, p, lens, c, used);
    case FileAt(i) =>
      WalkFile(img, v, p, lens, DirCluster(p.tree, lens, d), i, used);
  }

  lemma {:induction false} FileClusters(p: Plan, lens: seq<nat>, i: nat)
    requires Sound(p, lens) && i < |p.files|
    ensures ClustersUnder(p, lens, FileAt(i)) == ExtentClusters(lens, |p.tree| - 1 + i)
  {
    var k := |p.tree| - 1 + i;
    forall c | c in ExtentClusters(lens, k)
      ensures c in ClustersUnder(p, lens, FileAt(i))
    {
      assert InExtent(lens, k, c) && Under(p, k, FileAt(i));
      assert IsUnder(p, lens, c, FileAt(i));
    }
  }

  lemma {:induction false} WalkFile(img: Bytes, v: Volume, p: Plan, lens: seq<nat>, cluster: nat, i: nat,
                                    used: set<nat>)
    requires Sound(p, lens) && LinksSeen(img, v, lens) && i < |p.files| && FileSeen(img, v, p, lens, i)
    requires ClustersUnder(p, lens, FileAt(i)) !! used
    ensures var r := WalkEntry(img, v, cluster, EntryFor(p, lens, FileAt(i)), used);
            r.Fine? && r.used == used + ClustersUnder(p, lens, FileAt(i))
  {
    FileClusters(p, lens, i);
    WalkFileExtent(img, v, p, lens, cluster, i, used);
  }

  lemma {:induction false} WalkFileExtent(img: Bytes, v: Volume, p: Plan, lens: seq<nat>, cluster: nat, i: nat,
                                          used: set<nat>)
    requires Shaped(p, lens) && LinksSeen(img, v, lens) && i < |p.files| && FileSeen(img, v, p, lens, i)
    requires ExtentClusters(lens, |p.tree| - 1 + i) !! used
    ensures var r := WalkEntry(img, v, cluster, EntryFor(p, lens, FileAt(i)), used);
            r.Fine? && r.used == used + ExtentClusters(lens, |p.tree| - 1 + i)
  {
    var k := |p.tree| - 1 + i;
    var e := EntryFor(p, lens, FileAt(i));
    ExtentBounds(lens, k);
    FileEntry(v, p, lens, i);
    if lens[k] > 0 {
      WalkExtent(img, v, lens, k, used);
      WalkOneChain(img, v, cluster, e, used, Range(Start(lens, k), lens[k]));
    } else {
      assert ExtentClusters(lens, k) == {};
    }
  }

  /** The entry of a file: its first cluster and size as they are. */
  lemma {:induction false} FileEntry(v: Volume, p: Plan, lens: seq<nat>, i: nat)
    requires Shaped(p, lens) && i < |p.files| && |p.files[i].data| < WORD_32
    requires Start(lens, |lens|) <= v.clusters + 2 <= 0xFFF6
    ensures var e := EntryFor(p, lens, FileAt(i));
            && e.attr == ATTR_ARCHIVE && e.size == |p.files[i].data|
            && e.cluster == if lens[|p.tree| - 1 + i] == 0 then 0 else Start(lens, |p.tree| - 1 + i)
  {
    ExtentBounds(lens, |p.tree| - 1 + i);
  }

  lemma {:induction false} WalkOneChain(img: Bytes, v: Volume, cluster: nat, e: Entry, used: set<nat>, chain: seq<nat>)
    requires e.attr != ATTR_DIRECTORY && e.cluster != 0
    requires ChainWalk(img, v, e.cluster, used) == Some(chain)
    requires e.size <= |chain| * v.secPerClus * 512
    ensures WalkEntry(img, v, cluster, e, used) == Fine(used + Members(chain), [chain])
  {
  }

  lemma {:induction false} WalkDirectory(img: Bytes, v: Volume, p: Plan, lens: seq<nat>, c: nat, used: set<nat>)
    requires Sound(p, lens) && Seen(img, v, p, lens) && FilesSeen(img, v, p, lens)
    requires 0 < c < |p.tree|
    requires ClustersUnder(p, lens, SubDir(c)) !! used
    ensures var r := WalkDir(img, v, DirCluster(p.tree, lens, c), DirCluster(p.tree, lens, p.tree[c].parent), used);
            r.Fine? && r.used == used + ClustersUnder(p, lens, SubDir(c))
    decreases |p.tree| - c, |p.items[c]| + 1
  {
    assert DirSeen(img, v, p, lens, c);
    DirectoryClusters(p, lens, c);
    var parent := DirCluster(p.tree, lens, p.tree[c].parent);
    WalkOwnChain(img, v, p, lens, c, used);
    WalkItems(img, v, p, lens, c, 0, parent, used + ExtentClusters(lens, c - 1));
  }

  /** The start of a directory's walk: its own chain, then past its dot entries. */
  lemma {:induction false} WalkOwnChain(img: Bytes, v: Volume, p: Plan, lens: seq<nat>, c: nat, used: set<nat>)
    requires Sound(p, lens) && LinksSeen(img, v, lens) && 0 < c < |p.tree| && DirSeen(img, v, p, lens, c)
    requires ExtentClusters(lens, c - 1) !! used
    ensures 2 <= 16 * DirSectorCount(v, lens, c)
    ensures var cluster := DirCluster(p.tree, lens, c);
            var parent := DirCluster(p.tree, lens, p.tree[c].parent);
            WalkDir(img, v, cluster, parent, used)
            == Prepend([Range(cluster, lens[c - 1])],
                       WalkSlots(img, v, cluster, parent, Range(DirLba(v, lens, c), DirSectorCount(v, lens, c)), 2,
                                 used + ExtentClusters(lens, c - 1)))
  {
    var cluster := DirCluster(p.tree, lens, c);
    var parent := DirCluster(p.tree, lens, p.tree[c].parent);
    var sectors := Range(DirLba(v, lens, c), DirSectorCount(v, lens, c));
    var more := used + ExtentClusters(lens, c - 1);
    WalkExtent(img, v, lens, c - 1, used);
    SectorsOfRun(v, Start(lens, c - 1), lens[c - 1]);
    WalkDirUnfolds(img, v, cluster, parent, used);
    DotSlotSeen(img, v, p, lens, c, 0);
    DotSlotSeen(img, v, p, lens, c, 1);
    WalkPastDot(img, v, cluster, parent, sectors, 0, more);
    WalkPastDot(img, v, cluster, parent, sectors, 1, more);
  }

  // ---- the theorem ----

  lemma {:induction false} SoundFromHeld(img: Bytes, g: Geometry, p: Plan)
    requires Holds(img, g, p) && Readable(p)
    ensures Sound(p, Lens(g, p)) && Seen(img, VolFor(g), p, Lens(g, p)) && FilesSeen(img, VolFor(g), p, Lens(g, p))
  {
    ReadableNames(p);
    HeldIsSeen(img, g, p);
    forall i | 0 <= i < |p.spots|
      ensures p.spots[i].dir < |p.tree|
    {
      assert SpotOk(p.files[i], p.tree, p.spots[i]);
    }
    forall i | 0 <= i < |p.files|
      ensures FileSeen(img, VolFor(g), p, Lens(g, p), i)
    {
      HeldParts(img, g, p, i);
      FileIsSeen(img, g, p, i);
    }
  }

  /** The clusters handed out when `next` is the first one that is not. */
  ghost function HandedOut(next: nat): set<nat> { set c: nat | c < next && IsHandedOut(c, next) }

  predicate IsHandedOut(c: nat, next: nat) { 2 <= c < next }

  /** The checker accepts every built volume; the clusters it finds in chains are exactly those
      handed out, 2 up to the first one never allocated. */
  lemma {:induction false} BuiltVolumeAccepted(img: Bytes, g: Geometry, p: Plan)
    requires Holds(img, g, p) && Readable(p)
    ensures WalkVolume(img, VolFor(g)).Fine?
    ensures WalkVolume(img, VolFor(g)).used == HandedOut(Start(Lens(g, p), |Lens(g, p)|))
  {
    SoundFromHeld(img, g, p);
    SeenVolumeAccepted(img, VolFor(g), p, Lens(g, p));
  }

  lemma {:induction false} SeenVolumeAccepted(img: Bytes, v: Volume, p: Plan, lens: seq<nat>)
    requires Sound(p, lens) && Seen(img, v, p, lens) && FilesSeen(img, v, p, lens)
    ensures WalkVolume(img, v).Fine? && WalkVolume(img, v).used == HandedOut(Start(lens, |lens|))
  {
    WalkItems(img, v, p, lens, 0, 0, 0, {});
    RootClusters(p, lens);
    assert forall c: nat :: c in HandedOut(Start(lens, |lens|)) <==> IsHandedOut(c, Start(lens, |lens|));
  }

  /** Clusters from 2 up to `c` that are marked in the FAT but in no chain the walk found. */
  ghost function LostBelow(img: Bytes, v: Volume, used: set<nat>, c: nat): nat {
    if c <= 2 then 0
    else LostBelow(img, v, used, c - 1) + (if FatEntry(img, v, c - 1, 0) != 0 && c - 1 !in used then 1 else 0)
  }

  lemma {:induction false} LinkMarksAllocated(img: Bytes, g: Geometry, p: Plan, c: nat)
    requires Holds(img, g, p) && 2 <= c < 256 * g.sectorsPerFat
    ensures FatEntry(img, VolFor(g), c, 0) != 0 <==> c < Start(Lens(g, p), |Lens(g, p)|)
  {
    var lens := Lens(g, p);
    LinkReadBack(img, g, p, c, 0);
    if c < Start(lens, |lens|) {
      var k := ExtentHolding(lens, c, |lens|);
      assert InExtent(lens, k, c);
    }
  }

  /** The FAT marks exactly the clusters below `next`, as far as `n`. */
  ghost predicate MarkedBelow(img: Bytes, v: Volume, next: nat, n: nat) {
    forall k {:trigger FatEntry(img, v, k, 0)} :: 2 <= k < n ==> (FatEntry(img, v, k, 0) != 0 <==> k < next)
  }

  lemma {:induction false} CountsBelow(img: Bytes, v: Volume, next: nat, c: nat)
    requires c >= 2 && next >= 2 && MarkedBelow(img, v, next, c)
    ensures LostBelow(img, v, HandedOut(next), c) == 0
    ensures CountFree(img, v, c) == if c <= next then 0 else c - next
  {
    if c > 2 {
      CountsBelow(img, v, next, c - 1);
      assert c - 1 in HandedOut(next) <==> IsHandedOut(c - 1, next);
    }
  }

  lemma {:induction false} BuiltFatMarks(img: Bytes, g: Geometry, p: Plan)
    requires Holds(img, g, p) && g.clusters + 2 <= 256 * g.sectorsPerFat
    ensures MarkedBelow(img, VolFor(g), Start(Lens(g, p), |Lens(g, p)|), g.clusters + 2)
    ensures 2 <= Start(Lens(g, p), |Lens(g, p)|) == 2 + Sum(Lens(g, p), |Lens(g, p)|) <= g.clusters + 2
  {
    forall k {:trigger FatEntry(img, VolFor(g), k, 0)} | 2 <= k < g.clusters + 2
      ensures FatEntry(img, VolFor(g), k, 0) != 0 <==> k < Start(Lens(g, p), |Lens(g, p)|)
    {
      LinkMarksAllocated(img, g, p, k);
    }
  }

  /** The outcome of checking a volume: the walk accepts it, no cluster is lost, and `free` are free. */
  ghost predicate Clean(img: Bytes, v: Volume, free: int) {
    && WalkVolume(img, v).Fine?
    && LostBelow(img, v, WalkVolume(img, v).used, v.clusters + 2) == 0
    && CountFree(img, v, v.clusters + 2) == free
  }

  lemma {:induction false} SeenVolumeClean(img: Bytes, v: Volume, p: Plan, lens: seq<nat>)
    requires Sound(p, lens) && Seen(img, v, p, lens) && FilesSeen(img, v, p, lens)
    requires MarkedBelow(img, v, Start(lens, |lens|), v.clusters + 2)
    requires 2 <= Start(lens, |lens|) <= v.clusters + 2
    ensures Clean(img, v, v.clusters - Sum(lens, |lens|))
  {
    SeenVolumeAccepted(img, v, p, lens);
    CountsBelow(img, v, Start(lens, |lens|), v.clusters + 2);
  }

  /** When the FAT has an entry for every cluster, a built volume has no lost clusters, and the
      free ones are those not handed out. */
  lemma {:induction false} NothingLost(img: Bytes, g: Geometry, p: Plan)
    requires Holds(img, g, p) && Readable(p)
    requires g.clusters + 2 <= 256 * g.sectorsPerFat
    ensures Clean(img, VolFor(g), g.clusters - Sum(Lens(g, p), |Lens(g, p)|))
  {
    SoundFromHeld(img, g, p);
    BuiltFatMarks(img, g, p);
    SeenVolumeClean(img, VolFor(g), p, Lens(g, p));
  }

  lemma {:induction false} LostGrows(img: Bytes, v: Volume, used: set<nat>, c: nat, n: nat)
    requires 2 <= n < c && FatEntry(img, v, n, 0) != 0 && n !in used
    ensures LostBelow(img, v, used, c) > 0
  {
    if n < c - 1 { LostGrows(img, v, used, c - 1, n); }
  }

  /** The first cluster a short FAT has no entry for is read at the beginning of the next copy, which is
      not 0, and no chain has it. */
  lemma {:induction false} PastTheFat(img: Bytes, g: Geometry, p: Plan)
    requires Holds(img, g, p) && g.numFats > 1
    ensures FatEntry(img, VolFor(g), 256 * g.sectorsPerFat, 0) != 0
    ensures !IsHandedOut(256 * g.sectorsPerFat, Start(Lens(g, p), |Lens(g, p)|)) && g.sectorsPerFat > 0
  {
    var v := VolFor(g);
    LinkReadBack(img, g, p, 0, 1);
    assert (v.fatLba + 0 * v.secPerFat) * SECTOR_SIZE + 256 * g.sectorsPerFat * 2
        == (v.fatLba + 1 * v.secPerFat) * SECTOR_SIZE + 0 * 2;
  }

  /** The walk accepts a volume, and every cluster marked in its FAT is in a chain the walk found. */
  ghost predicate NoneLost(img: Bytes, v: Volume) {
    && WalkVolume(img, v).Fine?
    && LostBelow(img, v, WalkVolume(img, v).used, v.clusters + 2) == 0
  }

  lemma {:induction false} OneLost(img: Bytes, v: Volume, next: nat, n: nat)
    requires WalkVolume(img, v).Fine? && WalkVolume(img, v).used == HandedOut(next)
    requires 2 <= n < v.clusters + 2 && FatEntry(img, v, n, 0) != 0 && !IsHandedOut(n, next)
    ensures !NoneLost(img, v)
  {
    assert n in HandedOut(next) <==> IsHandedOut(n, next);
    LostGrows(img, v, HandedOut(next), v.clusters + 2, n);
  }

  lemma {:induction false} CleanLosesNone(img: Bytes, v: Volume, free: int)
    requires Clean(img, v, free)
    ensures NoneLost(img, v)
  {
  }

  /** A built volume with two FAT copies or more has no lost clusters exactly when the FAT has an entry for
      every cluster. */
  lemma {:induction false} NothingLostExactly(img: Bytes, g: Geometry, p: Plan, v: Volume)
    requires Holds(img, g, p) && Readable(p) && g.numFats > 1 && v == VolFor(g)
    ensures NoneLost(img, v) <==> g.clusters + 2 <= 256 * g.sectorsPerFat
  {
    if g.clusters + 2 <= 256 * g.sectorsPerFat {
      NothingLost(img, g, p);
      CleanLosesNone(img, v, g.clusters - Sum(Lens(g, p), |Lens(g, p)|));
    } else {
      BuiltVolumeAccepted(img, g, p);
      PastTheFat(img, g, p);
      OneLost(img, v, Start(Lens(g, p), |Lens(g, p)|), 256 * g.sectorsPerFat);
    }
  }
}
