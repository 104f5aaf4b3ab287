/** The directory tree a list of file paths calls for, and which entries each directory
    gets. */
module FatTree {
  import opened Words
  import opened FatNames

  datatype File = File(name: Bytes, data: Bytes)

  /** A directory: the directory it is in, and its upper-cased name. Directory 0 is the root. */
  datatype Node = Node(parent: nat, name: Name)

  /** Where a file goes: its directory and the name it has there. */
  datatype Spot = Spot(dir: nat, leaf: Name)

  type Tree = seq<Node>

  const ROOT := Node(0, [])

  predicate TreeOk(t: Tree) {
    && |t| > 0 && t[0] == ROOT
    && (forall c :: 0 < c < |t| ==> t[c].parent < c)
    && (forall c, d :: 0 < c < d < |t| ==> t[c] != t[d])
  }

  /** The names from the root down to a directory. */
  function PathOf(t: Tree, c: nat): seq<Name>
    requires TreeOk(t) && c < |t|
    decreases c
  {
    if c == 0 then [] else PathOf(t, t[c].parent) + [t[c].name]
  }

  /** The directory called `part` in directory `d`, looking at the first `n`; 0 if there is none. */
  function ChildAt(t: Tree, d: nat, part: Name, n: nat): (c: nat)
    requires n <= |t|
    ensures c != 0 ==> c < n && t[c] == Node(d, part)
    ensures c == 0 ==> forall k :: 0 < k < n ==> t[k] != Node(d, part)
  {
    if n <= 1 then 0
    else if t[n - 1] == Node(d, part) then n - 1
    else ChildAt(t, d, part, n - 1)
  }

  /** Go down `parts` from directory `d`, adding the directories that are missing. */
  function Place(t: Tree, d: nat, parts: seq<Name>): (Tree, nat)
    decreases |parts|
  {
    if parts == [] then (t, d)
    else
      var c := ChildAt(t, d, parts[0], |t|);
      if c != 0 then Place(t, c, parts[1..])
      else Place(t + [Node(d, parts[0])], |t|, parts[1..])
  }

  lemma {:induction false} PathOfExtends(t: Tree, u: Tree, c: nat)
    requires TreeOk(t) && TreeOk(u) && t <= u && c < |t|
    ensures PathOf(u, c) == PathOf(t, c)
    decreases c
  {
    if c != 0 { PathOfExtends(t, u, t[c].parent); }
  }

  /** Directories are told apart by their paths. */
  lemma {:induction false} PathOfInjective(t: Tree, c: nat, d: nat)
    requires TreeOk(t) && c < |t| && d < |t|
    requires PathOf(t, c) == PathOf(t, d)
    ensures c == d
    decreases c
  {
    if c != 0 && d != 0 {
      var p, q := PathOf(t, c), PathOf(t, d);
      assert PathOf(t, t[c].parent) == p[..|p| - 1] == q[..|q| - 1] == PathOf(t, t[d].parent);
      assert t[c].name == p[|p| - 1] == q[|q| - 1] == t[d].name;
      PathOfInjective(t, t[c].parent, t[d].parent);
    }
  }

  /** What placing a path must come to: what is there is kept, the place has the right path,
      and only directories on that path are added. */
  ghost predicate Placed(t: Tree, path: seq<Name>, u: Tree, e: nat) {
    && TreeOk(t) && TreeOk(u) && t <= u && e < |u|
    && PathOf(u, e) == path
    && forall c :: |t| <= c < |u| ==> PathOf(u, c) <= path
  }

  /** Placing keeps what is there, leads to the named directory, and adds only directories
      on its path. */
  lemma {:induction false} PlaceOk(t: Tree, d: nat, parts: seq<Name>)
    requires TreeOk(t) && d < |t|
    ensures Placed(t, PathOf(t, d) + parts, Place(t, d, parts).0, Place(t, d, parts).1)
    decreases |parts|
  {
    var path := PathOf(t, d) + parts;
    if parts == [] {
      assert path == PathOf(t, d);
    } else {
      var c := ChildAt(t, d, parts[0], |t|);
      if c != 0 {
        PlaceOk(t, c, parts[1..]);
        assert path == PathOf(t, c) + parts[1..];
      } else {
        var s := t + [Node(d, parts[0])];
        GrowOk(t, d, parts[0]);
        PlaceOk(s, |t|, parts[1..]);
        assert path == PathOf(s, |t|) + parts[1..];
        PlacedAfterGrowing(t, Node(d, parts[0]), path, Place(s, |t|, parts[1..]).0, Place(s, |t|, parts[1..]).1);
      }
    }
  }

  lemma PlacedAfterGrowing(t: Tree, node: Node, path: seq<Name>, u: Tree, e: nat)
    requires TreeOk(t) && Placed(t + [node], path, u, e)
    requires PathOf(t + [node], |t|) <= path
    ensures Placed(t, path, u, e)
  {
    PathOfExtends(t + [node], u, |t|);
  }

  lemma GrowOk(t: Tree, d: nat, name: Name)
    requires TreeOk(t) && d < |t|
    requires forall k :: 0 < k < |t| ==> t[k] != Node(d, name)
    ensures TreeOk(t + [Node(d, name)])
    ensures PathOf(t + [Node(d, name)], |t|) == PathOf(t, d) + [name]
  {
    var s := t + [Node(d, name)];
    assert forall k :: 0 <= k < |t| ==> s[k] == t[k];
    PathOfExtends(t, s, d);
  }

  /** A tree and spots that are right for a list of files: every file is put in the directory
      its path names, and every directory is on the path of some file. */
  ghost predicate PlanOk(files: seq<File>, t: Tree, spots: seq<Spot>) {
    && TreeOk(t) && |spots| == |files|
    && (forall i :: 0 <= i < |files| ==> SpotOk(files[i], t, spots[i]))
    && (forall c :: 0 < c < |t| ==> Needed(t, spots, c))
  }

  predicate SpotOk(f: File, t: Tree, spot: Spot)
    requires TreeOk(t)
  {
    && spot.dir < |t|
    && PathOf(t, spot.dir) == DirParts(f.name)
    && spot.leaf == Leaf(f.name)
  }

  ghost predicate Needed(t: Tree, spots: seq<Spot>, c: nat)
    requires TreeOk(t) && c < |t|
  {
    exists i :: 0 <= i < |spots| && spots[i].dir < |t| && PathOf(t, c) <= PathOf(t, spots[i].dir)
  }

  /** Placing one more file keeps the plan right. */
  lemma PlaceNext(files: seq<File>, t: Tree, spots: seq<Spot>, f: File)
    requires PlanOk(files, t, spots)
    ensures var (u, d) := Place(t, 0, DirParts(f.name));
            PlanOk(files + [f], u, spots + [Spot(d, Leaf(f.name))])
  {
    var (u, d) := Place(t, 0, DirParts(f.name));
    var spots' := spots + [Spot(d, Leaf(f.name))];
    PlaceOk(t, 0, DirParts(f.name));
    assert PathOf(t, 0) + DirParts(f.name) == DirParts(f.name);
    assert SpotOk(f, u, Spot(d, Leaf(f.name)));
    forall i | 0 <= i < |files|
      ensures SpotOk(files[i], u, spots[i])
    {
      PathOfExtends(t, u, spots[i].dir);
    }
    forall c | 0 < c < |u|
      ensures Needed(u, spots', c)
    {
      if c < |t| {
        assert Needed(t, spots, c);
        var i :| 0 <= i < |spots| && spots[i].dir < |t| && PathOf(t, c) <= PathOf(t, spots[i].dir);
        PathOfExtends(t, u, c);
        PathOfExtends(t, u, spots[i].dir);
        assert spots'[i] == spots[i];
      } else {
        assert spots'[|spots|].dir == d;
      }
    }
  }

  /** The tree for a list of files and each file's spot in it, one file after another. */
  function PlaceAll(files: seq<File>): (Tree, seq<Spot>) {
    if files == [] then ([ROOT], [])
    else
      var last := files[|files| - 1];
      var (t, spots) := PlaceAll(files[..|files| - 1]);
      var (u, d) := Place(t, 0, DirParts(last.name));
      (u, spots + [Spot(d, Leaf(last.name))])
  }

  lemma {:induction false} PlaceAllOk(files: seq<File>)
    ensures PlanOk(files, PlaceAll(files).0, PlaceAll(files).1)
  {
    if files != [] {
      var n := |files| - 1;
      PlaceAllOk(files[..n]);
      PlaceNext(files[..n], PlaceAll(files[..n]).0, PlaceAll(files[..n]).1, files[n]);
      assert files[..n] + [files[n]] == files;
    }
  }

  // ---- paths in a directory tree ----

  /** Directory `a` is directory `d` or one of the directories `d` is in. */
  predicate OnPath(t: Tree, a: nat, d: nat)
    requires TreeOk(t) && d < |t|
    decreases d
  {
    a == d || (d != 0 && OnPath(t, a, t[d].parent))
  }

  lemma {:induction false} OnPathByNames(t: Tree, a: nat, d: nat)
    requires TreeOk(t) && a < |t| && d < |t|
    ensures OnPath(t, a, d) <==> PathOf(t, a) <= PathOf(t, d)
    decreases d
  {
    var p, q := PathOf(t, a), PathOf(t, d);
    if d != 0 {
      OnPathByNames(t, a, t[d].parent);
      var q' := PathOf(t, t[d].parent);
      assert q == q' + [t[d].name];
      if p <= q {
        if |p| == |q| {
          assert p == q;
          PathOfInjective(t, a, d);
        } else {
          assert p == q[..|p|] == q'[..|p|];
        }
      }
      if p <= q' { assert p == q'[..|p|] == q[..|p|]; }
    } else if p <= q {
      PathOfInjective(t, a, d);
    }
  }

  // ---- the entries of a directory ----

  /** What an entry stands for: a directory in this one, or a file. */
  datatype Item = SubDir(dir: nat) | FileAt(index: nat)

  predicate Belongs(t: Tree, spots: seq<Spot>, d: nat, x: Item) {
    match x
    case SubDir(c) => 0 < c < |t| && t[c].parent == d
    case FileAt(i) => i < |spots| && spots[i].dir == d
  }

  predicate NoDuplicates<T(==)>(s: seq<T>) {
    forall i, j :: 0 <= i < j < |s| ==> s[i] != s[j]
  }

  /** One entry for each thing a directory holds, and no others. */
  ghost predicate ListsExactly(t: Tree, spots: seq<Spot>, d: nat, items: seq<Item>) {
    NoDuplicates(items) && forall x :: x in items <==> Belongs(t, spots, d, x)
  }

  /** A subdirectory as a directory records it: its name and its number. */
  datatype Sub = Sub(name: Name, dir: nat)

  /** The directories in directory `d`, in the order they were made. */
  function Children(t: Tree, d: nat, n: nat): seq<Sub>
    requires n <= |t|
  {
    if n <= 1 then []
    else Children(t, d, n - 1) + (if t[n - 1].parent == d then [Sub(t[n - 1].name, n - 1)] else [])
  }

  function CountFiles(spots: seq<Spot>, d: nat): nat {
    if spots == [] then 0
    else CountFiles(spots[..|spots| - 1], d) + (if spots[|spots| - 1].dir == d then 1 else 0)
  }

  /** "." and "..", which every directory but the root begins with. */
  function DotEntries(d: nat): nat { if d == 0 then 0 else 2 }

  /** The number of entries of directory `d`, counted before any is made. */
  function EntryCount(t: Tree, spots: seq<Spot>, d: nat): nat {
    |Children(t, d, |t|)| + CountFiles(spots, d) + DotEntries(d)
  }

  ghost function SubDirs(t: Tree, d: nat, n: nat): set<Item>
    requires n <= |t|
  {
    set c | 0 < c < n && t[c].parent == d :: SubDir(c)
  }

  ghost function FilesIn(spots: seq<Spot>, d: nat): set<Item> {
    set i | 0 <= i < |spots| && spots[i].dir == d :: FileAt(i)
  }

  lemma {:induction false} SubDirsCounted(t: Tree, d: nat, n: nat)
    requires n <= |t|
    ensures |SubDirs(t, d, n)| == |Children(t, d, n)|
  {
    if n <= 1 {
      assert SubDirs(t, d, n) == {};
    } else {
      SubDirsCounted(t, d, n - 1);
      var rest := SubDirs(t, d, n - 1);
      assert SubDirs(t, d, n) == if t[n - 1].parent == d then rest + {SubDir(n - 1)} else rest;
      assert SubDir(n - 1) !in rest;
    }
  }

  lemma {:induction false} FilesCounted(spots: seq<Spot>, d: nat)
    ensures |FilesIn(spots, d)| == CountFiles(spots, d)
  {
    if spots == [] {
      assert FilesIn(spots, d) == {};
    } else {
      var n := |spots| - 1;
      FilesCounted(spots[..n], d);
      var rest := FilesIn(spots[..n], d);
      assert FilesIn(spots, d) == if spots[n].dir == d then rest + {FileAt(n)} else rest;
      assert FileAt(n) !in rest;
    }
  }

  lemma {:induction false} DistinctLength<T>(s: seq<T>)
    requires NoDuplicates(s)
    ensures |set x | x in s| == |s|
  {
    if s == [] {
      assert (set x | x in s) == {};
    } else {
      var n := |s| - 1;
      DistinctLength(s[..n]);
      assert (set x | x in s) == (set x | x in s[..n]) + {s[n]};
      assert s[n] !in s[..n];
    }
  }

  /** The entry count made ahead of time is the number of entries the directory gets. */
  lemma EntriesCounted(t: Tree, spots: seq<Spot>, d: nat, items: seq<Item>)
    requires ListsExactly(t, spots, d, items)
    ensures |items| + DotEntries(d) == EntryCount(t, spots, d)
  {
    SubDirsCounted(t, d, |t|);
    FilesCounted(spots, d);
    DistinctLength(items);
    var subs, files := SubDirs(t, d, |t|), FilesIn(spots, d);
    forall x | x in items
      ensures x in subs + files
    {
      assert Belongs(t, spots, d, x);
    }
    assert (set x | x in items) == subs + files;
    assert subs !! files;
  }

  // ---- naming conflicts ----

  /** Path of a file, as its upper-cased parts. */
  function FullPath(f: File): seq<Name> { DirParts(f.name) + [Upper(Leaf(f.name))] }

  /** Paths a volume can hold side by side: no two files are the same, and no file's path
      leads through another file. */
  predicate DistinctPaths(files: seq<File>) {
    forall i, j :: 0 <= i < |files| && 0 <= j < |files| && i != j ==> !(FullPath(files[i]) <= FullPath(files[j]))
  }

  predicate ValidPath(f: File) {
    && (forall p :: p in DirParts(f.name) ==> Valid83(p))
    && Valid83(Leaf(f.name))
  }

  function ItemName(t: Tree, spots: seq<Spot>, x: Item): Name
    requires x.SubDir? ==> x.dir < |t|
    requires x.FileAt? ==> x.index < |spots|
  {
    match x
    case SubDir(c) => t[c].name
    case FileAt(i) => Upper(spots[i].leaf)
  }

  /** With distinct paths, the entries of one directory have distinct names. */
  lemma EntryNamesDistinct(files: seq<File>, t: Tree, spots: seq<Spot>, d: nat, x: Item, y: Item)
    requires DistinctPaths(files) && PlanOk(files, t, spots)
    requires Belongs(t, spots, d, x) && Belongs(t, spots, d, y)
    requires ItemName(t, spots, x) == ItemName(t, spots, y)
    ensures x == y
  {
    match (x, y) {
      case (FileAt(i), FileAt(j)) =>
        assert SpotOk(files[i], t, spots[i]) && SpotOk(files[j], t, spots[j]);
        assert FullPath(files[i]) == FullPath(files[j]);
      case (SubDir(c), SubDir(e)) =>
      case (FileAt(i), SubDir(c)) => FileIsNotDirectory(files, t, spots, i, c);
      case (SubDir(c), FileAt(i)) => FileIsNotDirectory(files, t, spots, i, c);
    }
  }

  lemma FileIsNotDirectory(files: seq<File>, t: Tree, spots: seq<Spot>, i: nat, c: nat)
    requires DistinctPaths(files) && PlanOk(files, t, spots)
    requires i < |files| && 0 < c < |t| && t[c].parent == spots[i].dir
    ensures t[c].name != Upper(spots[i].leaf)
  {
    if t[c].name == Upper(spots[i].leaf) {
      var j := ThroughDirectory(files, t, spots, i, c);
      assert false;
    }
  }

  /** A file named like a directory has another file below it. */
  lemma ThroughDirectory(files: seq<File>, t: Tree, spots: seq<Spot>, i: nat, c: nat) returns (j: nat)
    requires PlanOk(files, t, spots)
    requires i < |files| && 0 < c < |t| && t[c].parent == spots[i].dir
    requires t[c].name == Upper(spots[i].leaf)
    ensures j < |files| && j != i && FullPath(files[i]) <= FullPath(files[j])
  {
    assert Needed(t, spots, c);
    j :| 0 <= j < |spots| && spots[j].dir < |t| && PathOf(t, c) <= PathOf(t, spots[j].dir);
    assert SpotOk(files[i], t, spots[i]) && SpotOk(files[j], t, spots[j]);
    var p, q := PathOf(t, c), DirParts(files[j].name);
    assert p == FullPath(files[i]);
    assert p <= FullPath(files[j]) by { assert FullPath(files[j])[..|p|] == q[..|p|]; }
    assert |p| == |DirParts(files[i].name)| + 1;
  }

  /** Every directory's name is one of the parts of some file's path. */
  lemma DirectoryNamesValid(files: seq<File>, t: Tree, spots: seq<Spot>, c: nat)
    requires forall i :: 0 <= i < |files| ==> ValidPath(files[i])
    requires PlanOk(files, t, spots)
    requires 0 < c < |t|
    ensures Valid83(t[c].name) && Upper(t[c].name) == t[c].name
  {
    assert Needed(t, spots, c);
    var j :| 0 <= j < |spots| && spots[j].dir < |t| && PathOf(t, c) <= PathOf(t, spots[j].dir);
    var p := PathOf(t, c);
    assert SpotOk(files[j], t, spots[j]);
    var q := DirParts(files[j].name);
    assert t[c].name == p[|p| - 1] == q[|p| - 1];
    assert t[c].name in q;
    DirPartsAreUpper(files[j].name, t[c].name);
  }
}
