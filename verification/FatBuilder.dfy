/** Building a whole volume: the pass over the files that links directories, allocates file
    clusters and copies file contents, and the assembly of the image. */
module FatBuilder {
  import opened Words
  import opened FatGeometry
  import opened FatNames
  import opened FatTree
  import opened FatFormat
  import opened FatWriter

  // ---- what has been linked so far ----

  /** An item that is already in its directory: a linked directory, or one of the first `fi` files. */
  predicate Present(linked: seq<bool>, fi: nat, x: Item) {
    match x
    case SubDir(c) => c < |linked| && linked[c]
    case FileAt(i) => i < fi
  }

  ghost predicate ListsSoFar(t: Tree, spots: seq<Spot>, linked: seq<bool>, fi: nat, d: nat, items: seq<Item>) {
    NoDuplicates(items) && forall x :: x in items <==> Belongs(t, spots, d, x) && Present(linked, fi, x)
  }

  /** The directories linked so far are closed upwards, and each list has what is present. */
  ghost predicate Links(t: Tree, spots: seq<Spot>, linked: seq<bool>, items: seq<seq<Item>>, fi: nat) {
    && TreeOk(t) && |linked| == |t| && |items| == |t| && !linked[0]
    && (forall c :: 0 <= c < |t| && linked[c] ==> t[c].parent == 0 || linked[t[c].parent])
    && (forall d :: 0 <= d < |t| ==> ListsSoFar(t, spots, linked, fi, d, items[d]))
  }

  /** The directories of the first `fi` files are linked. */
  predicate SpotsLinked(spots: seq<Spot>, linked: seq<bool>, fi: nat) {
    && fi <= |spots|
    && forall i :: 0 <= i < fi ==> spots[i].dir < |linked| && (spots[i].dir == 0 || linked[spots[i].dir])
  }

  lemma {:induction false} AncestorsLinked(t: Tree, spots: seq<Spot>, linked: seq<bool>, items: seq<seq<Item>>, fi: nat,
                                           a: nat, d: nat)
    requires Links(t, spots, linked, items, fi)
    requires d < |t| && OnPath(t, a, d) && a != 0 && (d == 0 || linked[d])
    ensures a < |t| && linked[a]
    decreases d
  {
    if a != d { AncestorsLinked(t, spots, linked, items, fi, a, t[d].parent); }
  }

  lemma ListAfterLink(t: Tree, spots: seq<Spot>, linked: seq<bool>, fi: nat, d: nat, items: seq<Item>, x: nat)
    requires TreeOk(t) && |linked| == |t| && 0 < x < |t| && !linked[x]
    requires ListsSoFar(t, spots, linked, fi, d, items)
    ensures ListsSoFar(t, spots, linked[x := true], fi, d, if t[x].parent == d then items + [SubDir(x)] else items)
  {
    var after := if t[x].parent == d then items + [SubDir(x)] else items;
    assert SubDir(x) !in items by { assert !Present(linked, fi, SubDir(x)); }
    assert NoDuplicates(after);
    forall y
      ensures y in after <==> Belongs(t, spots, d, y) && Present(linked[x := true], fi, y)
    {
      assert y in items <==> Belongs(t, spots, d, y) && Present(linked, fi, y);
      assert y in after <==> y in items || (t[x].parent == d && y == SubDir(x));
    }
  }

  lemma ListAfterFile(t: Tree, spots: seq<Spot>, linked: seq<bool>, fi: nat, d: nat, items: seq<Item>)
    requires fi < |spots| && ListsSoFar(t, spots, linked, fi, d, items)
    ensures ListsSoFar(t, spots, linked, fi + 1, d, if spots[fi].dir == d then items + [FileAt(fi)] else items)
  {
    var after := if spots[fi].dir == d then items + [FileAt(fi)] else items;
    assert FileAt(fi) !in items by { assert !Present(linked, fi, FileAt(fi)); }
    assert NoDuplicates(after);
    forall y
      ensures y in after <==> Belongs(t, spots, d, y) && Present(linked, fi + 1, y)
    {
      assert y in items <==> Belongs(t, spots, d, y) && Present(linked, fi, y);
      assert y in after <==> y in items || (spots[fi].dir == d && y == FileAt(fi));
    }
  }

  lemma EncodeAppend(files: seq<File>, t: Tree, spots: seq<Spot>, lens: seq<nat>, d: nat, items: seq<Item>, x: Item)
    requires TreeOk(t) && d < |t| && |spots| == |files| && |lens| == |t| - 1 + |files|
    requires if x.SubDir? then x.dir < |t| else x.index < |files|
    requires ItemsInRange(files, t, items + [x])
    ensures ItemsInRange(files, t, items)
    ensures Encode(DirSlots(files, t, spots, lens, d, items + [x]))
         == Encode(DirSlots(files, t, spots, lens, d, items)) + SlotBytes(ItemSlot(files, t, spots, lens, x))
  {
    assert forall k :: 0 <= k < |items| ==> (items + [x])[k] == items[k];
    var slots := DirSlots(files, t, spots, lens, d, items + [x]);
    assert slots[..|slots| - 1] == DirSlots(files, t, spots, lens, d, items);
    assert (items + [x])[|items|] == x;
  }

  lemma {:induction false} ChildrenIncrease(t: Tree, d: nat, n: nat)
    requires n <= |t|
    ensures forall j, k :: 0 <= j < k < |Children(t, d, n)| ==> Children(t, d, n)[j].dir < Children(t, d, n)[k].dir
    ensures forall k :: 0 <= k < |Children(t, d, n)| ==> Children(t, d, n)[k].dir < n
  {
    if n > 1 { ChildrenIncrease(t, d, n - 1); }
  }

  lemma ChildPosition(t: Tree, x: nat) returns (at: nat)
    requires TreeOk(t) && 0 < x < |t|
    ensures var subs := Children(t, t[x].parent, |t|);
            && at < |subs| && subs[at] == Sub(t[x].name, x)
            && forall k :: 0 <= k < |subs| && k != at ==> subs[k].dir != x
  {
    var subs := Children(t, t[x].parent, |t|);
    ChildrenExactly(t, t[x].parent, |t|, Sub(t[x].name, x));
    at :| 0 <= at < |subs| && subs[at] == Sub(t[x].name, x);
    ChildrenIncrease(t, t[x].parent, |t|);
  }

  /** Enters directory `x` in its parent. */
  method LinkOne(dirs0: seq<Dir>, parent: seq<nat>, x: nat,
                 ghost files: seq<File>, ghost t: Tree, ghost spots: seq<Spot>, ghost lens: seq<nat>,
                 ghost items: seq<seq<Item>>)
    returns (dirs: seq<Dir>)
    requires TreeOk(t) && |spots| == |files| && |lens| == |t| - 1 + |files| && 0 < x < |t|
    requires |parent| == |t| && parent[x] == t[x].parent
    requires DirsFilled(files, t, spots, lens, dirs0, items)
    ensures DirsFilled(files, t, spots, lens, dirs, items[t[x].parent := items[t[x].parent] + [SubDir(x)]])
  {
    dirs := dirs0;
    var p := parent[x];
    ghost var at := ChildPosition(t, x);
    assert DirFilled(files, t, spots, lens, dirs0[p], p, items[p]);
    assert DirFilled(files, t, spots, lens, dirs0[x], x, items[x]);
    var subs := dirs0[p].subdirs;
    for k := 0 to |subs|
      invariant dirs == dirs0[p := dirs0[p].(entries := if k <= at then dirs0[p].entries
                          else dirs0[p].entries + SlotBytes(ItemSlot(files, t, spots, lens, SubDir(x))))]
    {
      if subs[k].dir == x {
        var entries := AddEntry(dirs[p].entries, subs[k].name, ATTR_DIRECTORY, dirs[x].cluster, 0);
        dirs := dirs[p := dirs[p].(entries := entries)];
      }
    }
    EncodeAppend(files, t, spots, lens, p, items[p], SubDir(x));
    assert DirFilled(files, t, spots, lens, dirs[p], p, items[p] + [SubDir(x)]);
  }

  /** List `d` is as before, or has gained one directory on the way to `dir` that was not
      linked before. */
  ghost predicate Gained(t: Tree, linked: seq<bool>, dir: nat, d: nat, before: seq<Item>, after: seq<Item>)
    requires TreeOk(t) && dir < |t|
  {
    || after == before
    || exists x :: 0 < x < |t| && x < |linked| && NewOnPath(t, linked, dir, d, x) && after == before + [SubDir(x)]
  }

  ghost predicate NewOnPath(t: Tree, linked: seq<bool>, dir: nat, d: nat, x: nat)
    requires TreeOk(t) && dir < |t| && x < |t| && x < |linked|
  {
    t[x].parent == d && !linked[x] && OnPath(t, x, dir)
  }

  /** The directories from `dir` up that are not linked yet, innermost first. */
  ghost predicate Unlinked(t: Tree, linked: seq<bool>, dir: nat, chain: seq<nat>)
    requires TreeOk(t) && |linked| == |t| && dir < |t|
  {
    && (forall j :: 0 <= j < |chain| ==> 0 < chain[j] < |t| && !linked[chain[j]] && OnPath(t, chain[j], dir))
    && (forall j :: 0 <= j < |chain| - 1 ==> chain[j + 1] == t[chain[j]].parent)
    && (forall i, j :: 0 <= i < j < |chain| ==> chain[j] < chain[i])
    && (if chain == [] then dir == 0 || linked[dir] else chain[0] == dir)
  }

  lemma {:induction false} ParentOnPath(t: Tree, x: nat, dir: nat)
    requires TreeOk(t) && dir < |t| && OnPath(t, x, dir) && 0 < x
    ensures x <= dir && OnPath(t, t[x].parent, dir)
    decreases dir
  {
    if x == dir {
      assert OnPath(t, t[x].parent, t[dir].parent);
    } else {
      ParentOnPath(t, x, t[dir].parent);
    }
  }

  method UnlinkedPath(dir: nat, linked: seq<bool>, parent: seq<nat>, ghost t: Tree) returns (chain: seq<nat>)
    requires TreeOk(t) && dir < |t| && |linked| == |t|
    requires |parent| == |t| && forall c :: 0 <= c < |t| ==> parent[c] == t[c].parent
    ensures Unlinked(t, linked, dir, chain)
    ensures chain != [] ==> var top := t[chain[|chain| - 1]].parent; top == 0 || linked[top]
  {
    chain := [];
    var x := dir;
    while x != 0 && !linked[x]
      invariant 0 <= x < |t| && OnPath(t, x, dir)
      invariant chain != [] ==> Unlinked(t, linked, dir, chain) && x == t[chain[|chain| - 1]].parent
      invariant chain == [] ==> x == dir
      decreases x
    {
      ParentOnPath(t, x, dir);
      chain := chain + [x];
      x := parent[x];
    }
  }

  /** The outer part of `chain`, from position `k` on, is linked; nothing else has changed. */
  ghost predicate LinkedFrom(t: Tree, linked0: seq<bool>, linked: seq<bool>, items0: seq<seq<Item>>,
                             items: seq<seq<Item>>, dir: nat, chain: seq<nat>, k: nat)
    requires TreeOk(t) && dir < |t| && |linked0| == |t| && |items0| == |t| && Unlinked(t, linked0, dir, chain)
  {
    && |linked| == |t| && |items| == |t|
    && (forall c :: 0 <= c < |t| && linked0[c] ==> linked[c])
    && (forall j :: 0 <= j < |chain| ==> (linked[chain[j]] <==> k <= j))
    && (forall d :: 0 <= d < |t| ==> items[d] == items0[d] || ParentIn(t, chain, k, d))
    && (forall d :: 0 <= d < |t| ==> Gained(t, linked0, dir, d, items0[d], items[d]))
  }

  ghost predicate ParentIn(t: Tree, chain: seq<nat>, k: nat, d: nat) {
    exists j :: k <= j < |chain| && chain[j] < |t| && t[chain[j]].parent == d
  }

  lemma LinkedFromNext(t: Tree, linked0: seq<bool>, linked: seq<bool>, items0: seq<seq<Item>>, items: seq<seq<Item>>,
                       dir: nat, chain: seq<nat>, k: nat)
    requires TreeOk(t) && dir < |t| && |linked0| == |t| && |items0| == |t| && Unlinked(t, linked0, dir, chain)
    requires k < |chain| && LinkedFrom(t, linked0, linked, items0, items, dir, chain, k + 1)
    ensures var x := chain[k]; var p := t[x].parent;
            LinkedFrom(t, linked0, linked[x := true], items0, items[p := items[p] + [SubDir(x)]], dir, chain, k)
  {
    var x := chain[k];
    var p := t[x].parent;
    var items' := items[p := items[p] + [SubDir(x)]];
    ParentsDiffer(t, chain, k);
    assert !ParentIn(t, chain, k + 1, p);
    assert NewOnPath(t, linked0, dir, p, x);
    assert Gained(t, linked0, dir, p, items0[p], items'[p]);
    forall d | 0 <= d < |t|
      ensures items'[d] == items0[d] || ParentIn(t, chain, k, d)
    {
      if d != p && ParentIn(t, chain, k + 1, d) {
        var j :| k + 1 <= j < |chain| && chain[j] < |t| && t[chain[j]].parent == d;
        assert k <= j < |chain| && chain[j] < |t| && t[chain[j]].parent == d;
      } else if d == p {
        assert k <= k < |chain| && chain[k] < |t| && t[chain[k]].parent == d;
      }
    }
  }

  /** Links the directories on a file's path that are not linked yet, outermost first. */
  method LinkPath(dirs0: seq<Dir>, linked0: seq<bool>, parent: seq<nat>, dir: nat,
                  ghost files: seq<File>, ghost t: Tree, ghost spots: seq<Spot>, ghost lens: seq<nat>,
                  ghost items0: seq<seq<Item>>, ghost fi: nat)
    returns (dirs: seq<Dir>, linked: seq<bool>, ghost items: seq<seq<Item>>)
    requires TreeOk(t) && |spots| == |files| && |lens| == |t| - 1 + |files| && dir < |t|
    requires |parent| == |t| && forall c :: 0 <= c < |t| ==> parent[c] == t[c].parent
    requires DirsFilled(files, t, spots, lens, dirs0, items0)
    requires Links(t, spots, linked0, items0, fi)
    ensures DirsFilled(files, t, spots, lens, dirs, items)
    ensures Links(t, spots, linked, items, fi)
    ensures dir == 0 || linked[dir]
    ensures forall c :: 0 <= c < |t| && linked0[c] ==> linked[c]
    ensures forall d :: 0 <= d < |t| ==> Gained(t, linked0, dir, d, items0[d], items[d])
  {
    var chain := UnlinkedPath(dir, linked0, parent, t);
    dirs, linked, items := dirs0, linked0, items0;
    var k := |chain|;
    while k > 0
      invariant 0 <= k <= |chain|
      invariant DirsFilled(files, t, spots, lens, dirs, items)
      invariant Links(t, spots, linked, items, fi)
      invariant LinkedFrom(t, linked0, linked, items0, items, dir, chain, k)
    {
      k := k - 1;
      var x := chain[k];
      assert t[x].parent == 0 || linked[t[x].parent] by {
        if k + 1 < |chain| { assert linked[chain[k + 1]]; }
      }
      dirs := LinkOne(dirs, parent, x, files, t, spots, lens, items);
      LinkedOne(t, spots, linked, items, fi, x);
      LinkedFromNext(t, linked0, linked, items0, items, dir, chain, k);
      items := items[t[x].parent := items[t[x].parent] + [SubDir(x)]];
      linked := linked[x := true];
    }
  }

  lemma ParentsDiffer(t: Tree, chain: seq<nat>, k: nat)
    requires TreeOk(t) && k < |chain|
    requires forall j :: 0 <= j < |chain| ==> 0 < chain[j] < |t|
    requires forall j :: 0 <= j < |chain| - 1 ==> chain[j + 1] == t[chain[j]].parent
    requires forall i, j :: 0 <= i < j < |chain| ==> chain[j] < chain[i]
    ensures forall j :: k < j < |chain| ==> t[chain[j]].parent != t[chain[k]].parent
  {
    forall j | k < j < |chain|
      ensures t[chain[j]].parent != t[chain[k]].parent
    {
      assert t[chain[j]].parent < chain[j] <= chain[k + 1] == t[chain[k]].parent;
    }
  }

  lemma LinkedOne(t: Tree, spots: seq<Spot>, linked: seq<bool>, items: seq<seq<Item>>, fi: nat, x: nat)
    requires Links(t, spots, linked, items, fi)
    requires 0 < x < |t| && !linked[x] && (t[x].parent == 0 || linked[t[x].parent])
    ensures Links(t, spots, linked[x := true], items[t[x].parent := items[t[x].parent] + [SubDir(x)]], fi)
  {
    var items' := items[t[x].parent := items[t[x].parent] + [SubDir(x)]];
    forall d | 0 <= d < |t|
      ensures ListsSoFar(t, spots, linked[x := true], fi, d, items'[d])
    {
      ListAfterLink(t, spots, linked, fi, d, items[d], x);
    }
  }

  // ---- the order of entries ----

  /** The first file whose path goes through directory `c`, among the first `n`; `n` if none does. */
  function FirstOn(t: Tree, spots: seq<Spot>, c: nat, n: nat): nat
    requires TreeOk(t) && n <= |spots| && forall i :: 0 <= i < |spots| ==> spots[i].dir < |t|
  {
    if n == 0 then 0
    else
      var first := FirstOn(t, spots, c, n - 1);
      if first < n - 1 || OnPath(t, c, spots[n - 1].dir) then first else n
  }

  lemma {:induction false} FirstOnIs(t: Tree, spots: seq<Spot>, c: nat, n: nat, i: nat)
    requires TreeOk(t) && i < n <= |spots| && forall j :: 0 <= j < |spots| ==> spots[j].dir < |t|
    requires OnPath(t, c, spots[i].dir) && forall j :: 0 <= j < i ==> !OnPath(t, c, spots[j].dir)
    ensures FirstOn(t, spots, c, n) == i
  {
    if n - 1 > i {
      FirstOnIs(t, spots, c, n - 1, i);
    } else {
      NotOnBefore(t, spots, c, i);
    }
  }

  lemma {:induction false} NotOnBefore(t: Tree, spots: seq<Spot>, c: nat, n: nat)
    requires TreeOk(t) && n <= |spots| && forall j :: 0 <= j < |spots| ==> spots[j].dir < |t|
    requires forall j :: 0 <= j < n ==> !OnPath(t, c, spots[j].dir)
    ensures FirstOn(t, spots, c, n) == n
  {
    if n > 0 { NotOnBefore(t, spots, c, n - 1); }
  }

  /** The file by whose path an item is first named. */
  function Mention(t: Tree, spots: seq<Spot>, x: Item): nat
    requires TreeOk(t) && forall i :: 0 <= i < |spots| ==> spots[i].dir < |t|
  {
    match x
    case SubDir(c) => FirstOn(t, spots, c, |spots|)
    case FileAt(i) => i
  }

  /** Items stand in the order they are first named in, and are all named before file `fi`. */
  ghost predicate InOrder(t: Tree, spots: seq<Spot>, items: seq<Item>, fi: nat)
    requires TreeOk(t) && forall i :: 0 <= i < |spots| ==> spots[i].dir < |t|
  {
    && (forall j :: 0 <= j < |items| ==> Mention(t, spots, items[j]) < fi)
    && (forall j, k :: 0 <= j < k < |items| ==> Mention(t, spots, items[j]) < Mention(t, spots, items[k]))
  }

  lemma NewDirectoryMention(t: Tree, spots: seq<Spot>, linked: seq<bool>, items: seq<seq<Item>>, fi: nat, x: nat)
    requires Links(t, spots, linked, items, fi) && SpotsLinked(spots, linked, fi)
    requires fi < |spots| && forall i :: 0 <= i < |spots| ==> spots[i].dir < |t|
    requires 0 < x < |t| && !linked[x] && OnPath(t, x, spots[fi].dir)
    ensures Mention(t, spots, SubDir(x)) == fi
  {
    forall i | 0 <= i < fi
      ensures !OnPath(t, x, spots[i].dir)
    {
      if OnPath(t, x, spots[i].dir) { AncestorsLinked(t, spots, linked, items, fi, x, spots[i].dir); }
    }
    FirstOnIs(t, spots, x, |spots|, fi);
  }

  /** Linking the path of file `fi` and then adding the file keeps a directory's list in order. */
  lemma OrderKept(t: Tree, spots: seq<Spot>, linked: seq<bool>, items: seq<seq<Item>>, fi: nat, d: nat,
                  after: seq<Item>)
    requires Links(t, spots, linked, items, fi) && SpotsLinked(spots, linked, fi)
    requires fi < |spots| && forall i :: 0 <= i < |spots| ==> spots[i].dir < |t|
    requires d < |t| && InOrder(t, spots, items[d], fi)
    requires Gained(t, linked, spots[fi].dir, d, items[d], after)
    ensures InOrder(t, spots, if spots[fi].dir == d then after + [FileAt(fi)] else after, fi + 1)
  {
    if after != items[d] {
      var x :| 0 < x < |t| && x < |linked| && NewOnPath(t, linked, spots[fi].dir, d, x)
        && after == items[d] + [SubDir(x)];
      NewDirectoryMention(t, spots, linked, items, fi, x);
      ParentOnPath(t, x, spots[fi].dir);
      assert spots[fi].dir != d;
    }
  }

  // ---- one file ----

  /** Copies a file's bytes to its clusters, a cluster at a time. */
  method CopyFile(image: array<byte>, g: Geometry, start: nat, data: Bytes, n: nat)
    requires LaidOut(g) && n == CeilDiv(|data|, g.sectorsPerCluster * SECTOR_SIZE)
    requires n > 0 ==> start >= 2
    requires n > 0 ==> ClusterOffset(g, start) + |data| <= image.Length
    modifies image
    ensures n > 0 ==> At(image[..], ClusterOffset(g, start), data)
    ensures forall k :: 0 <= k < image.Length ==>
              (n == 0 || !(ClusterOffset(g, start) <= k < ClusterOffset(g, start) + |data|))
                ==> image[k] == old(image[k])
  {
    if n == 0 { return; }
    var perCluster := g.sectorsPerCluster * SECTOR_SIZE;
    ghost var base := ClusterOffset(g, start);
    CeilDivBounds(|data|, perCluster);
    var done := 0;
    for c := 0 to n
      invariant done == if c < n then c * perCluster else |data|
      invariant 0 <= done <= |data|
      invariant forall k :: 0 <= k < done ==> image[base + k] == data[k]
      invariant forall k :: 0 <= k < image.Length && !(base <= k < base + done) ==> image[k] == old(image[k])
    {
      ChunkBounds(|data|, perCluster, n, c);
      OffsetOfNext(g, start, c);
      var at := (g.dataLba + (start + c - 2) * g.sectorsPerCluster) * SECTOR_SIZE;
      var len := if perCluster <= |data| - done then perCluster else |data| - done;
      CopyChunk(image, at, data, done, len);
      done := done + len;
    }
  }

  method CopyChunk(image: array<byte>, at: nat, data: Bytes, from: nat, len: nat)
    requires from + len <= |data| && at + len <= image.Length
    modifies image
    ensures forall k :: from <= k < from + len ==> image[at - from + k] == data[k]
    ensures forall k :: 0 <= k < image.Length && !(at <= k < at + len) ==> image[k] == old(image[k])
  {
    CopyInto(image, at, data[from..from + len]);
    forall k | from <= k < from + len
      ensures image[at - from + k] == data[k]
    {
      var j := k - from;
      assert image[..][at..at + len][j] == data[from..from + len][j] == data[k];
      assert image[at + j] == image[..][at + j] == image[..][at..at + len][j];
    }
  }

  lemma ChunkBounds(size: nat, perCluster: nat, n: nat, c: nat)
    requires perCluster > 0 && c < n && 0 <= n * perCluster - size < perCluster
    ensures 0 <= c * perCluster < size
    ensures c + 1 < n ==> (c + 1) * perCluster == c * perCluster + perCluster && (c + 1) * perCluster < size
    ensures c + 1 == n ==> size - c * perCluster <= perCluster
  {
    MulMono(c, n - 1, perCluster);
    MulMono(0, c, perCluster);
    MulDist(n - 1, 1, perCluster);
    MulDist(c, 1, perCluster);
    if c + 1 < n { MulMono(c + 1, n - 1, perCluster); }
  }

  /** How far the pass over the files has come, after `fi` of them. */
  ghost predicate PassState(files: seq<File>, t: Tree, spots: seq<Spot>, lens: seq<nat>,
                            dirs: seq<Dir>, linked: seq<bool>, items: seq<seq<Item>>, fi: nat)
    requires TreeOk(t) && |spots| == |files| && |lens| == |t| - 1 + |files|
    requires forall i :: 0 <= i < |spots| ==> spots[i].dir < |t|
  {
    && DirsFilled(files, t, spots, lens, dirs, items)
    && Links(t, spots, linked, items, fi)
    && SpotsLinked(spots, linked, fi)
    && forall d :: 0 <= d < |t| ==> InOrder(t, spots, items[d], fi)
  }

  /** The tree side of one file: its directories linked, its own entry added. */
  method EnterFile(dirs0: seq<Dir>, linked0: seq<bool>, parent: seq<nat>, spot: Spot, cluster: u16, size: u32,
                   ghost files: seq<File>, ghost t: Tree, ghost spots: seq<Spot>, ghost lens: seq<nat>,
                   ghost items0: seq<seq<Item>>, ghost fi: nat)
    returns (dirs: seq<Dir>, linked: seq<bool>, ghost items: seq<seq<Item>>)
    requires TreeOk(t) && |spots| == |files| && |lens| == |t| - 1 + |files| && fi < |files|
    requires forall i :: 0 <= i < |spots| ==> spots[i].dir < |t|
    requires |parent| == |t| && forall c :: 0 <= c < |t| ==> parent[c] == t[c].parent
    requires spot == spots[fi] && cluster == FileCluster(t, lens, fi) && size == ToU32(|files[fi].data|)
    requires PassState(files, t, spots, lens, dirs0, linked0, items0, fi)
    ensures PassState(files, t, spots, lens, dirs, linked, items, fi + 1)
  {
    var d := spot.dir;
    dirs, linked, items := LinkPath(dirs0, linked0, parent, d, files, t, spots, lens, items0, fi);
    dirs := AddFileEntry(dirs, spot, cluster, size, files, t, spots, lens, items, fi);
    ghost var linkedItems := items;
    items := items[d := items[d] + [FileAt(fi)]];
    forall e | 0 <= e < |t|
      ensures InOrder(t, spots, items[e], fi + 1) && ListsSoFar(t, spots, linked, fi + 1, e, items[e])
    {
      OrderKept(t, spots, linked0, items0, fi, e, linkedItems[e]);
      ListAfterFile(t, spots, linked, fi, e, linkedItems[e]);
    }
  }

  /** A file's entry at the end of its directory. */
  method AddFileEntry(dirs0: seq<Dir>, spot: Spot, cluster: u16, size: u32,
                      ghost files: seq<File>, ghost t: Tree, ghost spots: seq<Spot>, ghost lens: seq<nat>,
                      ghost items: seq<seq<Item>>, ghost fi: nat)
    returns (dirs: seq<Dir>)
    requires TreeOk(t) && |spots| == |files| && |lens| == |t| - 1 + |files| && fi < |files|
    requires spot == spots[fi] && spot.dir < |t|
    requires cluster == FileCluster(t, lens, fi) && size == ToU32(|files[fi].data|)
    requires DirsFilled(files, t, spots, lens, dirs0, items)
    ensures DirsFilled(files, t, spots, lens, dirs, items[spot.dir := items[spot.dir] + [FileAt(fi)]])
  {
    var d := spot.dir;
    assert DirFilled(files, t, spots, lens, dirs0[d], d, items[d]);
    var entries := AddEntry(dirs0[d].entries, spot.leaf, ATTR_ARCHIVE, cluster, size);
    EncodeAppend(files, t, spots, lens, d, items[d], FileAt(fi));
    SameSlotBytes(spot.leaf, ATTR_ARCHIVE, cluster, |files[fi].data|);
    dirs := dirs0[d := dirs0[d].(entries := entries)];
    assert DirFilled(files, t, spots, lens, dirs[d], d, items[d] + [FileAt(fi)]);
  }

  lemma SameSlotBytes(name: Name, attr: byte, cluster: u16, size: nat)
    ensures SlotBytes(Slot(NameField(name), attr, cluster, ToU32(size)))
         == SlotBytes(Slot(NameField(name), attr, cluster, size))
  {
  }

  /** Byte `at` of the image lies in extent `k`. */
  predicate InsideExtent(g: Geometry, lens: seq<nat>, k: nat, at: int)
    requires k < |lens|
  {
    ExtentOffset(g, lens, k) <= at < ExtentOffset(g, lens, k + 1)
  }

  /** A file's bytes are where its extent begins. */
  ghost predicate FileStored(img: Bytes, g: Geometry, t: Tree, lens: seq<nat>, files: seq<File>, i: nat)
    requires |t| > 0 && |lens| == |t| - 1 + |files| && i < |files|
  {
    At(img, ExtentOffset(g, lens, |t| - 1 + i), files[i].data)
  }

  lemma ExtentOfFile(t: Tree, spots: seq<Spot>, files: seq<File>, g: Geometry, i: nat)
    requires LaidOut(g) && |t| > 0 && i < |files|
    ensures var n := Extents(t, spots, files, g.sectorsPerCluster)[|t| - 1 + i];
            && n == CeilDiv(|files[i].data|, g.sectorsPerCluster * SECTOR_SIZE)
            && |files[i].data| <= n * (g.sectorsPerCluster * SECTOR_SIZE)
            && (files[i].data == [] ==> n == 0)
  {
    var perCluster := g.sectorsPerCluster * SECTOR_SIZE;
    CeilDivBounds(|files[i].data|, perCluster);
    CeilDivZero(perCluster);
  }

  /** The cluster side of one file: its clusters allocated and its bytes copied there. */
  method StoreFile(image: array<byte>, fat: array<byte>, g: Geometry, data: Bytes, next: u16,
                   ghost files: seq<File>, ghost t: Tree, ghost spots: seq<Spot>, ghost lens: seq<nat>, ghost fi: nat)
    returns (start: u16, next': u16)
    requires image != fat && LaidOut(g) && image.Length == g.totalSectors * SECTOR_SIZE
    requires TreeOk(t) && |spots| == |files| && fi < |files| && data == files[fi].data
    requires lens == Extents(t, spots, files, g.sectorsPerCluster) && ExtentsFit(g, lens)
    requires fat.Length == g.sectorsPerFat * SECTOR_SIZE
    requires next == Start(lens, |t| - 1 + fi) && LinksUpTo(fat, lens, |t| - 1 + fi)
    modifies image, fat
    ensures start == FileCluster(t, lens, fi)
    ensures next' == Start(lens, |t| + fi) && LinksUpTo(fat, lens, |t| + fi)
    ensures FileStored(image[..], g, t, lens, files, fi)
    ensures forall k | 0 <= k < image.Length && !InsideExtent(g, lens, |t| - 1 + fi, k) :: image[k] == old(image[k])
  {
    ghost var k := |t| - 1 + fi;
    ExtentOfFile(t, spots, files, g, fi);
    ExtentOffsets(g, lens, k);
    SumMonotone(lens, k + 1, |lens|);
    var n := if data == [] then 0 else CeilDiv(|data|, g.sectorsPerCluster * SECTOR_SIZE);
    assert n == lens[k];
    start, next' := AllocateExtent(fat, next, lens, k, n);
    CopyFile(image, g, start, data, n);
    assert n == 0 ==> data == [];
  }

  /** What the pass has done to the FAT and the image after `fi` files. */
  ghost predicate StoreState(image: array<byte>, fat: array<byte>, g: Geometry, t: Tree, lens: seq<nat>,
                             files: seq<File>, next: nat, fi: nat)
    requires |t| > 0 && |lens| == |t| - 1 + |files| && fi <= |files|
    reads image, fat
  {
    && next == Start(lens, |t| - 1 + fi) && LinksUpTo(fat, lens, |t| - 1 + fi)
    && forall i :: 0 <= i < fi ==> FileStored(image[..], g, t, lens, files, i)
  }

  /** Clusters and contents of file `fi`, on top of those before it. */
  method StoreNext(image: array<byte>, fat: array<byte>, g: Geometry, data: Bytes, next: u16,
                   ghost files: seq<File>, ghost t: Tree, ghost spots: seq<Spot>, ghost lens: seq<nat>, ghost fi: nat)
    returns (start: u16, next': u16)
    requires image != fat && LaidOut(g) && image.Length == g.totalSectors * SECTOR_SIZE
    requires TreeOk(t) && |spots| == |files| && fi < |files| && data == files[fi].data
    requires lens == Extents(t, spots, files, g.sectorsPerCluster) && ExtentsFit(g, lens)
    requires fat.Length == g.sectorsPerFat * SECTOR_SIZE
    requires StoreState(image, fat, g, t, lens, files, next, fi)
    modifies image, fat
    ensures start == FileCluster(t, lens, fi)
    ensures StoreState(image, fat, g, t, lens, files, next', fi + 1)
    ensures forall k :: 0 <= k < image.Length && k < ExtentOffset(g, lens, |t| - 1) ==> image[k] == old(image[k])
  {
    ghost var before := image[..];
    start, next' := StoreFile(image, fat, g, data, next, files, t, spots, lens, fi);
    EarlierFilesKept(before, image[..], g, t, spots, lens, files, fi);
    ExtentsInOrder(g, lens, |t| - 1, |t| - 1 + fi);
  }

  /** The plan the pass works from: a tree, spots in it, and extents that fit the volume. */
  ghost predicate Sized(g: Geometry, files: seq<File>, t: Tree, spots: seq<Spot>, lens: seq<nat>) {
    && LaidOut(g) && TreeOk(t) && |spots| == |files|
    && (forall i :: 0 <= i < |spots| ==> spots[i].dir < |t|)
    && lens == Extents(t, spots, files, g.sectorsPerCluster) && ExtentsFit(g, lens)
  }

  predicate ParentsOf(t: Tree, parent: seq<nat>) {
    |parent| == |t| && forall c :: 0 <= c < |t| ==> parent[c] == t[c].parent
  }

  /** One file of the second pass. */
  method PassFile(image: array<byte>, fat: array<byte>, g: Geometry, file: File, spot: Spot,
                  dirs0: seq<Dir>, linked0: seq<bool>, parent: seq<nat>, next0: u16,
                  ghost files: seq<File>, ghost t: Tree, ghost spots: seq<Spot>, ghost lens: seq<nat>,
                  ghost items0: seq<seq<Item>>, ghost fi: nat)
    returns (dirs: seq<Dir>, linked: seq<bool>, next: u16, ghost items: seq<seq<Item>>)
    requires image != fat && Sized(g, files, t, spots, lens) && ParentsOf(t, parent)
    requires image.Length == g.totalSectors * SECTOR_SIZE && fat.Length == g.sectorsPerFat * SECTOR_SIZE
    requires fi < |files| && file == files[fi] && spot == spots[fi]
    requires PassState(files, t, spots, lens, dirs0, linked0, items0, fi)
    requires StoreState(image, fat, g, t, lens, files, next0, fi)
    modifies image, fat
    ensures PassState(files, t, spots, lens, dirs, linked, items, fi + 1)
    ensures StoreState(image, fat, g, t, lens, files, next, fi + 1)
    ensures forall k :: 0 <= k < image.Length && k < ExtentOffset(g, lens, |t| - 1) ==> image[k] == old(image[k])
  {
    var start;
    start, next := StoreNext(image, fat, g, file.data, next0, files, t, spots, lens, fi);
    dirs, linked, items := EnterFile(dirs0, linked0, parent, spot, start, ToU32(|file.data|),
                                     files, t, spots, lens, items0, fi);
  }

  /** Second pass: entries in the order they were first named, file data after the directories. */
  method SecondPass(image: array<byte>, fat: array<byte>, g: Geometry, files: seq<File>, placed: seq<Spot>,
                    dirs0: seq<Dir>, parent: seq<nat>, next0: u16,
                    ghost t: Tree, ghost lens: seq<nat>, ghost items0: seq<seq<Item>>)
    returns (dirs: seq<Dir>, ghost items: seq<seq<Item>>, ghost linked: seq<bool>)
    requires image != fat && Sized(g, files, t, placed, lens) && ParentsOf(t, parent)
    requires image.Length == g.totalSectors * SECTOR_SIZE && fat.Length == g.sectorsPerFat * SECTOR_SIZE
    requires PassState(files, t, placed, lens, dirs0, seq(|t|, _ => false), items0, 0)
    requires StoreState(image, fat, g, t, lens, files, next0, 0)
    modifies image, fat
    ensures PassState(files, t, placed, lens, dirs, linked, items, |files|)
    ensures exists next :: StoreState(image, fat, g, t, lens, files, next, |files|)
    ensures forall k :: 0 <= k < image.Length && k < ExtentOffset(g, lens, |t| - 1) ==> image[k] == old(image[k])
  {
    var marks := seq(|dirs0|, _ => false);
    var next := next0;
    dirs, items := dirs0, items0;
    assert marks == seq(|t|, _ => false);
    for fi := 0 to |files|
      invariant PassState(files, t, placed, lens, dirs, marks, items, fi)
      invariant StoreState(image, fat, g, t, lens, files, next, fi)
      invariant forall k :: 0 <= k < image.Length && k < ExtentOffset(g, lens, |t| - 1) ==> image[k] == old(image[k])
    {
      dirs, marks, next, items := PassFile(image, fat, g, files[fi], placed[fi], dirs, marks, parent, next,
                                           files, t, placed, lens, items, fi);
    }
    linked := marks;
  }

  lemma PassBegins(files: seq<File>, t: Tree, spots: seq<Spot>, lens: seq<nat>, dirs: seq<Dir>, items: seq<seq<Item>>)
    requires TreeOk(t) && |spots| == |files| && |lens| == |t| - 1 + |files|
    requires forall i :: 0 <= i < |spots| ==> spots[i].dir < |t|
    requires DirsFilled(files, t, spots, lens, dirs, items)
    requires forall d :: 0 <= d < |t| ==> items[d] == []
    ensures PassState(files, t, spots, lens, dirs, seq(|t|, _ => false), items, 0)
  {
    NothingLinked(t, spots, seq(|t|, _ => false), items);
  }

  lemma NothingLinked(t: Tree, spots: seq<Spot>, linked: seq<bool>, items: seq<seq<Item>>)
    requires TreeOk(t) && |linked| == |t| && |items| == |t|
    requires forall c :: 0 <= c < |t| ==> !linked[c] && items[c] == []
    ensures Links(t, spots, linked, items, 0)
  {
    forall d | 0 <= d < |t|
      ensures ListsSoFar(t, spots, linked, 0, d, items[d])
    {
    }
  }

  lemma EarlierFilesKept(before: Bytes, after: Bytes, g: Geometry, t: Tree, spots: seq<Spot>, lens: seq<nat>,
                         files: seq<File>, fi: nat)
    requires LaidOut(g) && |t| > 0 && lens == Extents(t, spots, files, g.sectorsPerCluster) && ExtentsFit(g, lens)
    requires fi < |files| && |before| == |after|
    requires forall i :: 0 <= i < fi ==> FileStored(before, g, t, lens, files, i)
    requires forall k | 0 <= k < |before| && !InsideExtent(g, lens, |t| - 1 + fi, k) :: after[k] == before[k]
    ensures forall i :: 0 <= i < fi ==> FileStored(after, g, t, lens, files, i)
  {
    forall i | 0 <= i < fi
      ensures FileStored(after, g, t, lens, files, i)
    {
      ExtentOfFile(t, spots, files, g, i);
      ExtentOffsets(g, lens, |t| - 1 + i);
      ExtentsInOrder(g, lens, |t| + i, |t| - 1 + fi);
      assert FileStored(before, g, t, lens, files, i);
      AtOutside(before, after, ExtentOffset(g, lens, |t| - 1 + i), files[i].data,
                ExtentOffset(g, lens, |t| - 1 + fi), ExtentOffset(g, lens, |t| + fi));
    }
  }

  /** After all files every directory is linked, so the lists are complete. */
  lemma AllLinked(files: seq<File>, t: Tree, spots: seq<Spot>, linked: seq<bool>, items: seq<seq<Item>>, d: nat)
    requires PlanOk(files, t, spots)
    requires Links(t, spots, linked, items, |files|) && SpotsLinked(spots, linked, |files|)
    requires d < |t|
    ensures ListsExactly(t, spots, d, items[d])
  {
    assert ListsSoFar(t, spots, linked, |files|, d, items[d]);
    forall x | Belongs(t, spots, d, x)
      ensures Present(linked, |files|, x)
    {
      if x.SubDir? {
        assert Needed(t, spots, x.dir);
        var i :| 0 <= i < |spots| && spots[i].dir < |t| && PathOf(t, x.dir) <= PathOf(t, spots[i].dir);
        OnPathByNames(t, x.dir, spots[i].dir);
        AncestorsLinked(t, spots, linked, items, |files|, x.dir, spots[i].dir);
      }
    }
  }
}
