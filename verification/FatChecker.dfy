/** The volume consistency checker: every chain it reaches ends properly, and no cluster is in
    two chains. What it accepts is consistent, and it accepts every volume the writer builds. */
module FatChecker {
  import opened Words
  import opened FatNames
  import opened FatTree
  import opened FatFormat
  import opened FatReader

  predicate IsCluster(v: Volume, c: nat) { 2 <= c < v.clusters + 2 }

  ghost function AllClusters(v: Volume): set<nat> { set c: nat | c < v.clusters + 2 && IsCluster(v, c) }

  /** Clusters of the volume not used yet: what the walk's recursion runs out of. */
  ghost function Free(v: Volume, used: set<nat>): nat { |AllClusters(v) - used| }

  lemma FreeShrinks(v: Volume, used: set<nat>, more: set<nat>)
    requires used <= more
    ensures Free(v, more) <= Free(v, used)
    ensures (exists c :: c in more && c !in used && IsCluster(v, c)) ==> Free(v, more) < Free(v, used)
  {
    var a, b := AllClusters(v) - used, AllClusters(v) - more;
    SubsetSize(b, a);
    if c :| c in more && c !in used && IsCluster(v, c) {
      assert c in a && c !in b;
      SubsetSize(b, a - {c});
    }
  }

  lemma SubsetSize(a: set<nat>, b: set<nat>)
    requires a <= b
    ensures |a| <= |b|
  {
    if a != {} {
      var x :| x in a;
      SubsetSize(a - {x}, b - {x});
    }
  }

  // ---- chains ----

  /** The clusters of the chain from `c`, if it ends properly without meeting a cluster in `used`
      (or itself). */
  ghost function ChainWalk(img: Bytes, v: Volume, c: nat, used: set<nat>): Option<seq<nat>>
    decreases Free(v, used)
  {
    if c < 2 || c >= v.clusters + 2 || c in used then None
    else
      var n := FatEntry(img, v, c, 0);
      if n >= 0xFFF8 then Some([c])
      else if n == 0 then None
      else
        FreeShrinks(v, used, used + {c});
        assert IsCluster(v, c);
        match ChainWalk(img, v, n, used + {c})
        case None => None
        case Some(rest) => Some([c] + rest)
  }

  function Members(s: seq<nat>): set<nat> { set c | c in s }

  /** The entry of cluster number `k` of a chain links to the next one. */
  predicate LinksOn(img: Bytes, v: Volume, chain: seq<nat>, k: nat)
    requires k + 1 < |chain|
  {
    FatEntry(img, v, chain[k], 0) == chain[k + 1] < 0xFFF8
  }

  /** A proper chain of the FAT: clusters of the volume, each linked to the next, the last
      marked as the end. */
  predicate ProperChain(img: Bytes, v: Volume, chain: seq<nat>) {
    && |chain| > 0
    && (forall k :: 0 <= k < |chain| ==> IsCluster(v, chain[k]))
    && (forall k :: 0 <= k < |chain| - 1 ==> LinksOn(img, v, chain, k))
    && FatEntry(img, v, chain[|chain| - 1], 0) >= 0xFFF8
  }

  lemma ProperChainGrows(img: Bytes, v: Volume, c: nat, rest: seq<nat>)
    requires ProperChain(img, v, rest) && IsCluster(v, c)
    requires FatEntry(img, v, c, 0) == rest[0] < 0xFFF8
    ensures ProperChain(img, v, [c] + rest)
  {
    var chain := [c] + rest;
    forall k | 0 <= k < |chain| - 1
      ensures LinksOn(img, v, chain, k)
    {
      if k > 0 { assert LinksOn(img, v, rest, k - 1); }
    }
  }

  lemma ProperChainTail(img: Bytes, v: Volume, chain: seq<nat>)
    requires ProperChain(img, v, chain) && |chain| > 1
    ensures ProperChain(img, v, chain[1..])
  {
    forall k | 0 <= k < |chain| - 2
      ensures LinksOn(img, v, chain[1..], k)
    {
      assert LinksOn(img, v, chain, k + 1);
    }
  }

  lemma MembersOfCons(c: nat, rest: seq<nat>)
    ensures Members([c] + rest) == {c} + Members(rest)
  {
    var chain := [c] + rest;
    assert chain[0] == c;
    forall x | x in Members(rest)
      ensures x in Members(chain)
    {
      var k :| 0 <= k < |rest| && rest[k] == x;
      assert chain[k + 1] == x;
    }
  }

  /** A walk that succeeds has found a proper chain that keeps clear of `used` and of itself. */
  lemma {:induction false} ChainWalkSound(img: Bytes, v: Volume, c: nat, used: set<nat>)
    ensures ChainWalk(img, v, c, used).Some? ==>
              var chain := ChainWalk(img, v, c, used).value;
              ProperChain(img, v, chain) && chain[0] == c && NoDuplicates(chain) && Members(chain) !! used
    decreases Free(v, used)
  {
    if ChainWalk(img, v, c, used).Some? {
      var n := FatEntry(img, v, c, 0);
      assert IsCluster(v, c);
      if n < 0xFFF8 {
        FreeShrinks(v, used, used + {c});
        ChainWalkSound(img, v, n, used + {c});
        var rest := ChainWalk(img, v, n, used + {c}).value;
        ProperChainGrows(img, v, c, rest);
        MembersOfCons(c, rest);
        assert c !in rest;
      }
    }
  }

  /** A proper chain that keeps clear of `used` and of itself is what the walk finds. */
  lemma {:induction false} ChainWalkComplete(img: Bytes, v: Volume, chain: seq<nat>, used: set<nat>)
    requires ProperChain(img, v, chain) && NoDuplicates(chain) && Members(chain) !! used
    ensures ChainWalk(img, v, chain[0], used) == Some(chain)
    decreases |chain|
  {
    var c := chain[0];
    assert IsCluster(v, c) && c in Members(chain);
    if |chain| > 1 {
      var rest := chain[1..];
      assert LinksOn(img, v, chain, 0);
      ProperChainTail(img, v, chain);
      assert chain == [c] + rest;
      MembersOfCons(c, rest);
      assert c !in rest;
      FreeShrinks(v, used, used + {c});
      assert IsCluster(v, rest[0]);
      ChainWalkComplete(img, v, rest, used + {c});
    } else {
      assert chain == [c];
    }
  }

  // ---- directories ----

  /** What walking a directory comes to: an error; an entry for a directory with first cluster 0,
      from which the program starts over at the root with the clusters seen till then; or the
      clusters used so far and the chains met. */
  datatype Walked = Bad | Restarts(seen: set<nat>) | Fine(used: set<nat>, chains: seq<seq<nat>>)

  /** An entry the checker has to judge: its name, attribute, first cluster and size. */
  predicate WellFormed(img: Bytes, off: nat) {
    && ValidField(Field11(img, off))
    && (ByteAt(img, off + 11) == ATTR_ARCHIVE || ByteAt(img, off + 11) == ATTR_DIRECTORY)
  }

  predicate IsDot(name: Name) { name == [DOT] || name == [DOT, DOT] }

  predicate DotOk(e: Entry, index: nat, cluster: nat, parent: nat) {
    && cluster != 0 && index <= 1
    && (e.name == [DOT] ==> e.cluster == cluster)
    && (e.name == [DOT, DOT] ==> e.cluster == parent)
  }

  ghost function WalkSlots(img: Bytes, v: Volume, cluster: nat, parent: nat, sectors: seq<nat>, k: nat,
                           used: set<nat>): (r: Walked)
    requires k <= 16 * |sectors|
    ensures r.Fine? ==> used <= r.used
    ensures r.Restarts? ==> used <= r.seen
    decreases Free(v, used), 1, 16 * |sectors| - k
  {
    if k == 16 * |sectors| then Fine(used, [])
    else
      var off := EntryOffset(sectors, k);
      var e := DecodeEntry(img, off);
      if ByteAt(img, off) == 0 then Fine(used, [])
      else if ByteAt(img, off) == 0xE5 then WalkSlots(img, v, cluster, parent, sectors, k + 1, used)
      else if !WellFormed(img, off) then Bad
      else if IsDot(e.name) then
        if DotOk(e, k, cluster, parent) then WalkSlots(img, v, cluster, parent, sectors, k + 1, used) else Bad
      else
        match WalkEntry(img, v, cluster, e, used)
        case Bad => Bad
        case Restarts(seen) => Restarts(seen)
        case Fine(more, chains) =>
          FreeShrinks(v, used, more);
          match WalkSlots(img, v, cluster, parent, sectors, k + 1, more)
          case Bad => Bad
          case Restarts(seen) => Restarts(seen)
          case Fine(all, others) => Fine(all, chains + others)
  }

  /** One entry that is neither dot entry: a directory is walked, a file's chain is. */
  ghost function WalkEntry(img: Bytes, v: Volume, cluster: nat, e: Entry, used: set<nat>): (r: Walked)
    ensures r.Fine? ==> used <= r.used
    ensures r.Restarts? ==> used <= r.seen
    decreases Free(v, used), 0, 1
  {
    if e.attr == ATTR_DIRECTORY then
      if e.cluster == 0 then Restarts(used) else WalkDir(img, v, e.cluster, cluster, used)
    else if e.size == 0 && e.cluster == 0 then Fine(used, [])
    else if e.cluster == 0 then Bad
    else
      match ChainWalk(img, v, e.cluster, used)
      case None => Bad
      case Some(chain) =>
        if e.size > |chain| * v.secPerClus * 512 then Bad else Fine(used + Members(chain), [chain])
  }

  /** A directory with a chain of its own. */
  ghost function WalkDir(img: Bytes, v: Volume, cluster: nat, parent: nat, used: set<nat>): (r: Walked)
    ensures r.Fine? ==> used <= r.used
    ensures r.Restarts? ==> used <= r.seen
    decreases Free(v, used), 0, 0
  {
    match ChainWalk(img, v, cluster, used)
    case None => Bad
    case Some(chain) =>
      ChainWalkSound(img, v, cluster, used);
      ChainUses(v, chain, used);
      assert forall k :: 0 <= k < |chain| ==> IsCluster(v, chain[k]);
      match WalkSlots(img, v, cluster, parent, SectorsOf(v, chain), 0, used + Members(chain))
      case Bad => Bad
      case Restarts(seen) => Restarts(seen)
      case Fine(all, chains) => Fine(all, [chain] + chains)
  }

  lemma ChainUses(v: Volume, chain: seq<nat>, used: set<nat>)
    requires |chain| > 0 && Members(chain) !! used
    requires forall k :: 0 <= k < |chain| ==> IsCluster(v, chain[k])
    ensures Free(v, used + Members(chain)) < Free(v, used)
  {
    FreeShrinks(v, used, used + Members(chain));
    assert chain[0] in Members(chain) && IsCluster(v, chain[0]) && chain[0] !in used;
  }

  /** The walk of a whole volume, from its root. */
  ghost function WalkVolume(img: Bytes, v: Volume): Walked {
    WalkSlots(img, v, 0, 0, Range(v.rootLba, v.rootEntries / 16), 0, {})
  }

  // ---- what is accepted is consistent ----

  function UnionOf(chains: seq<seq<nat>>): set<nat> {
    if chains == [] then {} else UnionOf(chains[..|chains| - 1]) + Members(chains[|chains| - 1])
  }

  lemma {:induction false} UnionOfConcat(a: seq<seq<nat>>, b: seq<seq<nat>>)
    ensures UnionOf(a + b) == UnionOf(a) + UnionOf(b)
  {
    if b == [] {
      assert a + b == a;
    } else {
      var n := |b| - 1;
      assert (a + b)[..|a + b| - 1] == a + b[..n];
      UnionOfConcat(a, b[..n]);
    }
  }

  lemma {:induction false} InUnion(chains: seq<seq<nat>>, k: nat)
    requires k < |chains|
    ensures Members(chains[k]) <= UnionOf(chains)
  {
    if k < |chains| - 1 { InUnion(chains[..|chains| - 1], k); }
  }

  /** All chains are proper, no cluster is in two of them or twice in one, and none was used
      before; together they are what is used after. */
  ghost predicate Consistent(img: Bytes, v: Volume, chains: seq<seq<nat>>, before: set<nat>, after: set<nat>) {
    && (forall k :: 0 <= k < |chains| ==>
          ProperChain(img, v, chains[k]) && NoDuplicates(chains[k]) && Members(chains[k]) !! before)
    && (forall j, k :: 0 <= j < k < |chains| ==> Members(chains[j]) !! Members(chains[k]))
    && after == before + UnionOf(chains)
  }

  lemma ConsistentConcat(img: Bytes, v: Volume, a: seq<seq<nat>>, b: seq<seq<nat>>, before: set<nat>, mid: set<nat>,
                         after: set<nat>)
    requires Consistent(img, v, a, before, mid) && Consistent(img, v, b, mid, after)
    ensures Consistent(img, v, a + b, before, after)
  {
    UnionOfConcat(a, b);
    var all := a + b;
    forall j, k | 0 <= j < k < |all|
      ensures Members(all[j]) !! Members(all[k])
    {
      if j < |a| && k >= |a| {
        InUnion(a, j);
        assert Members(b[k - |a|]) !! mid;
      }
    }
  }

  lemma ConsistentOne(img: Bytes, v: Volume, chain: seq<nat>, used: set<nat>)
    requires ProperChain(img, v, chain) && NoDuplicates(chain) && Members(chain) !! used
    ensures Consistent(img, v, [chain], used, used + Members(chain))
  {
    assert [chain][..0] == [];
    assert UnionOf([chain]) == UnionOf([chain][..0]) + Members(chain);
  }

  /** A slot the walk looks at: in use and well-formed. */
  predicate InUse(img: Bytes, off: nat) { ByteAt(img, off) != 0 && ByteAt(img, off) != 0xE5 && WellFormed(img, off) }

  lemma {:induction false} WalkSlotsSound(img: Bytes, v: Volume, cluster: nat, parent: nat, sectors: seq<nat>, k: nat,
                                          used: set<nat>)
    requires k <= 16 * |sectors|
    requires WalkSlots(img, v, cluster, parent, sectors, k, used).Fine?
    ensures Consistent(img, v, WalkSlots(img, v, cluster, parent, sectors, k, used).chains, used,
                       WalkSlots(img, v, cluster, parent, sectors, k, used).used)
    decreases Free(v, used), 1, 16 * |sectors| - k
  {
    if k == 16 * |sectors| || ByteAt(img, EntryOffset(sectors, k)) == 0 {
      NothingWalked(img, v, cluster, parent, sectors, k, used);
    } else if ByteAt(img, EntryOffset(sectors, k)) == 0xE5 || IsDot(DecodeEntry(img, EntryOffset(sectors, k)).name) {
      WalkSkips(img, v, cluster, parent, sectors, k, used);
      WalkSlotsSound(img, v, cluster, parent, sectors, k + 1, used);
    } else {
      var one := WalkTakes(img, v, cluster, parent, sectors, k, used);
      WalkEntrySound(img, v, cluster, DecodeEntry(img, EntryOffset(sectors, k)), used);
      WalkSlotsSound(img, v, cluster, parent, sectors, k + 1, one.used);
      EntryThenRest(img, v, cluster, parent, sectors, k, used);
    }
  }

  lemma {:induction false} NothingWalked(img: Bytes, v: Volume, cluster: nat, parent: nat, sectors: seq<nat>, k: nat,
                                         used: set<nat>)
    requires k <= 16 * |sectors|
    requires k == 16 * |sectors| || ByteAt(img, EntryOffset(sectors, k)) == 0
    ensures WalkSlots(img, v, cluster, parent, sectors, k, used) == Fine(used, [])
    ensures Consistent(img, v, [], used, used)
  {
  }

  lemma {:induction false} WalkSkips(img: Bytes, v: Volume, cluster: nat, parent: nat, sectors: seq<nat>, k: nat,
                                     used: set<nat>)
    requires k < 16 * |sectors| && ByteAt(img, EntryOffset(sectors, k)) != 0
    requires ByteAt(img, EntryOffset(sectors, k)) == 0xE5 || IsDot(DecodeEntry(img, EntryOffset(sectors, k)).name)
    requires WalkSlots(img, v, cluster, parent, sectors, k, used).Fine?
    ensures WalkSlots(img, v, cluster, parent, sectors, k, used)
            == WalkSlots(img, v, cluster, parent, sectors, k + 1, used)
  {
  }

  lemma {:induction false} WalkTakes(img: Bytes, v: Volume, cluster: nat, parent: nat, sectors: seq<nat>, k: nat,
                                     used: set<nat>) returns (one: Walked)
    requires k < 16 * |sectors|
    requires ByteAt(img, EntryOffset(sectors, k)) != 0 && ByteAt(img, EntryOffset(sectors, k)) != 0xE5
    requires !IsDot(DecodeEntry(img, EntryOffset(sectors, k)).name)
    requires WalkSlots(img, v, cluster, parent, sectors, k, used).Fine?
    ensures InUse(img, EntryOffset(sectors, k))
    ensures one == WalkEntry(img, v, cluster, DecodeEntry(img, EntryOffset(sectors, k)), used) && one.Fine?
    ensures WalkSlots(img, v, cluster, parent, sectors, k + 1, one.used).Fine?
    ensures Free(v, one.used) <= Free(v, used)
  {
    one := WalkEntry(img, v, cluster, DecodeEntry(img, EntryOffset(sectors, k)), used);
    FreeShrinks(v, used, one.used);
  }

  /** An entry's chains and those of the slots after it are consistent together. */
  lemma {:induction false} EntryThenRest(img: Bytes, v: Volume, cluster: nat, parent: nat, sectors: seq<nat>, k: nat,
                                         used: set<nat>)
    requires k < 16 * |sectors|
    requires InUse(img, EntryOffset(sectors, k)) && !IsDot(DecodeEntry(img, EntryOffset(sectors, k)).name)
    requires WalkSlots(img, v, cluster, parent, sectors, k, used).Fine?
    requires var one := WalkEntry(img, v, cluster, DecodeEntry(img, EntryOffset(sectors, k)), used);
             one.Fine? && Consistent(img, v, one.chains, used, one.used)
             && var rest := WalkSlots(img, v, cluster, parent, sectors, k + 1, one.used);
                rest.Fine? && Consistent(img, v, rest.chains, one.used, rest.used)
    ensures var r := WalkSlots(img, v, cluster, parent, sectors, k, used);
            Consistent(img, v, r.chains, used, r.used)
  {
    var one := WalkEntry(img, v, cluster, DecodeEntry(img, EntryOffset(sectors, k)), used);
    var rest := WalkSlots(img, v, cluster, parent, sectors, k + 1, one.used);
    ConsistentConcat(img, v, one.chains, rest.chains, used, one.used, rest.used);
  }

  lemma {:induction false} WalkEntrySound(img: Bytes, v: Volume, cluster: nat, e: Entry, used: set<nat>)
    requires WalkEntry(img, v, cluster, e, used).Fine?
    ensures Consistent(img, v, WalkEntry(img, v, cluster, e, used).chains, used,
                       WalkEntry(img, v, cluster, e, used).used)
    decreases Free(v, used), 0, 1
  {
    if e.attr == ATTR_DIRECTORY {
      WalkDirSound(img, v, e.cluster, cluster, used);
    } else if e.cluster != 0 {
      ChainWalkSound(img, v, e.cluster, used);
      ConsistentOne(img, v, ChainWalk(img, v, e.cluster, used).value, used);
    }
  }

  lemma {:induction false} WalkDirSound(img: Bytes, v: Volume, cluster: nat, parent: nat, used: set<nat>)
    requires WalkDir(img, v, cluster, parent, used).Fine?
    ensures Consistent(img, v, WalkDir(img, v, cluster, parent, used).chains, used,
                       WalkDir(img, v, cluster, parent, used).used)
    decreases Free(v, used), 0, 0
  {
    var chain := ChainWalk(img, v, cluster, used).value;
    WalkDirUnfolds(img, v, cluster, parent, used);
    ChainWalkSound(img, v, cluster, used);
    ChainUses(v, chain, used);
    WalkSlotsSound(img, v, cluster, parent, SectorsOf(v, chain), 0, used + Members(chain));
    ConsistentOne(img, v, chain, used);
    var inner := WalkSlots(img, v, cluster, parent, SectorsOf(v, chain), 0, used + Members(chain));
    ConsistentConcat(img, v, [chain], inner.chains, used, used + Members(chain), inner.used);
  }

  /** Any volume the checker accepts is consistent: its chains are proper, acyclic and pairwise
      disjoint, and the clusters marked used are exactly theirs. */
  lemma AcceptedIsConsistent(img: Bytes, v: Volume)
    requires WalkVolume(img, v).Fine?
    ensures Consistent(img, v, WalkVolume(img, v).chains, {}, WalkVolume(img, v).used)
  {
    WalkSlotsSound(img, v, 0, 0, Range(v.rootLba, v.rootEntries / 16), 0, {});
  }

  // ---- one step of the walk ----

  lemma {:induction false} WalkPastEntry(img: Bytes, v: Volume, cluster: nat, parent: nat, sectors: seq<nat>, k: nat,
                                         used: set<nat>)
    requires k < 16 * |sectors|
    requires InUse(img, EntryOffset(sectors, k)) && !IsDot(DecodeEntry(img, EntryOffset(sectors, k)).name)
    requires WalkEntry(img, v, cluster, DecodeEntry(img, EntryOffset(sectors, k)), used).Fine?
    ensures var more := WalkEntry(img, v, cluster, DecodeEntry(img, EntryOffset(sectors, k)), used).used;
            var rest := WalkSlots(img, v, cluster, parent, sectors, k + 1, more);
            var r := WalkSlots(img, v, cluster, parent, sectors, k, used);
            rest.Fine? ==> r.Fine? && r.used == rest.used
  {
  }

  lemma {:induction false} WalkPastDot(img: Bytes, v: Volume, cluster: nat, parent: nat, sectors: seq<nat>, k: nat,
                                       used: set<nat>)
    requires k < 16 * |sectors|
    requires InUse(img, EntryOffset(sectors, k)) && IsDot(DecodeEntry(img, EntryOffset(sectors, k)).name)
    requires DotOk(DecodeEntry(img, EntryOffset(sectors, k)), k, cluster, parent)
    ensures WalkSlots(img, v, cluster, parent, sectors, k, used)
            == WalkSlots(img, v, cluster, parent, sectors, k + 1, used)
  {
  }

  // ---- the walk as the program runs it ----

  function Prepend(chains: seq<seq<nat>>, w: Walked): Walked {
    if w.Fine? then Fine(w.used, chains + w.chains) else w
  }

  function After(out: seq<nat>, rest: Option<seq<nat>>): Option<seq<nat>> {
    if rest.Some? then Some(out + rest.value) else None
  }

  lemma {:induction false} ChainBegins(img: Bytes, v: Volume, c: nat, used: set<nat>)
    ensures After([], ChainWalk(img, v, c, used)) == ChainWalk(img, v, c, used)
    ensures used + Members([]) == used
  {
    var w := ChainWalk(img, v, c, used);
    if w.Some? { assert [] + w.value == w.value; }
  }

  /** What one step of following a chain comes to. */
  lemma {:induction false} ChainStep(img: Bytes, v: Volume, c: nat, used: set<nat>, out: seq<nat>)
    ensures After(out, ChainWalk(img, v, c, used))
         == if !IsCluster(v, c) || c in used then None
            else var n := FatEntry(img, v, c, 0);
                 if n >= 0xFFF8 then Some(out + [c])
                 else if n == 0 then None
                 else After(out + [c], ChainWalk(img, v, n, used + {c}))
    ensures Members(out + [c]) == Members(out) + {c}
    ensures IsCluster(v, c) && c !in used ==> Free(v, used + {c}) < Free(v, used)
  {
    MembersOfSnoc(out, c);
    if IsCluster(v, c) && c !in used {
      FreeShrinks(v, used, used + {c});
      var n := FatEntry(img, v, c, 0);
      if 0 < n < 0xFFF8 {
        var rest := ChainWalk(img, v, n, used + {c});
        if rest.Some? { assert (out + [c]) + rest.value == out + ([c] + rest.value); }
      }
    }
  }

  /** The clusters met so far, and the walk that marks them. */
  class Walk {
    var used: set<nat>

    constructor ()
      ensures used == {}
    {
      used := {};
    }

    /** Follows a chain, marking its clusters; false at a link out of range, a cluster met before
        or a free cluster. */
    method WalkChain(img: Bytes, v: Volume, first: u16) returns (ok: bool, out: seq<nat>)
      modifies this
      ensures ok <==> ChainWalk(img, v, first, old(used)).Some?
      ensures ok ==> Some(out) == ChainWalk(img, v, first, old(used)) && used == old(used) + Members(out)
      ensures old(used) <= used
    {
      out := [];
      var c: nat := first;
      ghost var before := used;
      ChainBegins(img, v, first, used);
      while true
        invariant used == before + Members(out)
        invariant ChainWalk(img, v, first, before) == After(out, ChainWalk(img, v, c, used))
        decreases Free(v, used)
      {
        ChainStep(img, v, c, used, out);
        if c < 2 || c >= v.clusters + 2 || c in used { return false, out; }
        used := used + {c};
        out := out + [c];
        var n := FatEntry(img, v, c, 0);
        if n >= 0xFFF8 { return true, out; }
        if n == 0 { return false, out; }
        c := n;
      }
    }

    /** Walks a directory (cluster 0: the root) and everything below it. */
    method WalkFrom(img: Bytes, v: Volume, cluster: u16, parent: u16) returns (ok: bool, ghost r: Walked)
      modifies this
      ensures r == if cluster == 0 then WalkSlots(img, v, 0, parent, Range(v.rootLba, v.rootEntries / 16), 0, old(used))
                   else WalkDir(img, v, cluster, parent, old(used))
      ensures ok <==> r.Fine?
      ensures ok ==> used == r.used
      ensures r.Restarts? ==> used == r.seen
      decreases Free(v, used), if cluster == 0 then 3 else 0
    {
      if cluster == 0 {
        ok, r := WalkList(img, v, cluster, parent, Range(v.rootLba, v.rootEntries / 16));
      } else {
        ghost var before := used;
        var chain;
        ok, chain := WalkChain(img, v, cluster);
        if !ok { return false, Bad; }
        ChainWalkSound(img, v, cluster, before);
        ChainUses(v, chain, before);
        WalkDirUnfolds(img, v, cluster, parent, before);
        ok, r := WalkList(img, v, cluster, parent, SectorsOf(v, chain));
        r := Prepend([chain], r);
      }
    }

    /** The entries of one directory, in order. */
    method WalkList(img: Bytes, v: Volume, cluster: u16, parent: u16, sectors: seq<nat>)
      returns (ok: bool, ghost r: Walked)
      modifies this
      ensures r == WalkSlots(img, v, cluster, parent, sectors, 0, old(used))
      ensures ok <==> r.Fine?
      ensures ok ==> used == r.used
      ensures r.Restarts? ==> used == r.seen
      decreases Free(v, used), 2
    {
      ghost var whole := WalkSlots(img, v, cluster, parent, sectors, 0, used);
      ghost var chains: seq<seq<nat>> := [];
      var index := 0;
      while index < 16 * |sectors|
        invariant 0 <= index <= 16 * |sectors|
        invariant old(used) <= used
        invariant whole == Prepend(chains, WalkSlots(img, v, cluster, parent, sectors, index, used))
      {
        FreeShrinks(v, old(used), used);
        var off := EntryOffset(sectors, index);
        if ByteAt(img, off) == 0 {
          assert chains + [] == chains;
          return true, whole;
        }
        if ByteAt(img, off) != 0xE5 {
          if !WellFormed(img, off) { return false, whole; }
          var e := DecodeEntry(img, off);
          if IsDot(e.name) {
            if !DotOk(e, index, cluster, parent) { return false, whole; }
          } else {
            ghost var before := used;
            ghost var one;
            ok, one := WalkOne(img, v, cluster, e);
            WalkListStep(img, v, cluster, parent, sectors, index, before, chains);
            if !ok { return false, whole; }
            chains := chains + one.chains;
          }
        }
        index := index + 1;
      }
      assert chains + [] == chains;
      return true, whole;
    }

    /** A file's chain, or a directory. */
    method WalkOne(img: Bytes, v: Volume, cluster: u16, e: Entry) returns (ok: bool, ghost r: Walked)
      modifies this
      ensures r == WalkEntry(img, v, cluster, e, old(used))
      ensures ok <==> r.Fine?
      ensures ok ==> used == r.used
      ensures r.Restarts? ==> used == r.seen
      decreases Free(v, used), 1
    {
      r := WalkEntry(img, v, cluster, e, used);
      if e.attr == ATTR_DIRECTORY {
        if e.cluster == 0 { return false, r; }
        ok, r := WalkFrom(img, v, e.cluster, cluster);
      } else if e.size > 0 || e.cluster != 0 {
        if e.cluster == 0 { return false, r; }
        var chain;
        ok, chain := WalkChain(img, v, e.cluster);
        if !ok { return; }
        ok := e.size <= |chain| * v.secPerClus * 512;
      } else {
        ok := true;
      }
    }
  }

  lemma {:induction false} WalkDirUnfolds(img: Bytes, v: Volume, cluster: nat, parent: nat, used: set<nat>)
    requires ChainWalk(img, v, cluster, used).Some?
    ensures ProperChain(img, v, ChainWalk(img, v, cluster, used).value)
    ensures var chain := ChainWalk(img, v, cluster, used).value;
            WalkDir(img, v, cluster, parent, used)
            == Prepend([chain], WalkSlots(img, v, cluster, parent, SectorsOf(v, chain), 0, used + Members(chain)))
  {
    ChainWalkSound(img, v, cluster, used);
    assert forall k :: 0 <= k < |ChainWalk(img, v, cluster, used).value| ==>
                         IsCluster(v, ChainWalk(img, v, cluster, used).value[k]);
  }

  lemma MembersOfSnoc(s: seq<nat>, c: nat)
    ensures Members(s + [c]) == Members(s) + {c}
  {
    assert (s + [c])[|s|] == c;
    forall x | x in Members(s)
      ensures x in Members(s + [c])
    {
      var k :| 0 <= k < |s| && s[k] == x;
      assert (s + [c])[k] == x;
    }
  }

  lemma {:induction false} WalkListStep(img: Bytes, v: Volume, cluster: nat, parent: nat, sectors: seq<nat>, k: nat,
                                        used: set<nat>, chains: seq<seq<nat>>)
    requires k < 16 * |sectors|
    requires InUse(img, EntryOffset(sectors, k)) && !IsDot(DecodeEntry(img, EntryOffset(sectors, k)).name)
    ensures var one := WalkEntry(img, v, cluster, DecodeEntry(img, EntryOffset(sectors, k)), used);
            Prepend(chains, WalkSlots(img, v, cluster, parent, sectors, k, used))
            == if one.Fine? then Prepend(chains + one.chains,
                                         WalkSlots(img, v, cluster, parent, sectors, k + 1, one.used))
               else one
  {
    var one := WalkEntry(img, v, cluster, DecodeEntry(img, EntryOffset(sectors, k)), used);
    if one.Fine? {
      var rest := WalkSlots(img, v, cluster, parent, sectors, k + 1, one.used);
      if rest.Fine? { assert chains + (one.chains + rest.chains) == (chains + one.chains) + rest.chains; }
    }
  }

  // ---- starting over ----

  /** In the root the parent's number plays no part. */
  lemma {:induction false} RootHasNoParent(img: Bytes, v: Volume, parent: nat, sectors: seq<nat>, k: nat,
                                           used: set<nat>)
    requires k <= 16 * |sectors|
    ensures WalkSlots(img, v, 0, parent, sectors, k, used) == WalkSlots(img, v, 0, 0, sectors, k, used)
    decreases Free(v, used), 16 * |sectors| - k
  {
    if k < 16 * |sectors| {
      var off := EntryOffset(sectors, k);
      var e := DecodeEntry(img, off);
      if ByteAt(img, off) == 0xE5 {
        RootHasNoParent(img, v, parent, sectors, k + 1, used);
      } else if ByteAt(img, off) != 0 && WellFormed(img, off) && !IsDot(e.name) {
        var one := WalkEntry(img, v, 0, e, used);
        if one.Fine? {
          FreeShrinks(v, used, one.used);
          RootHasNoParent(img, v, parent, sectors, k + 1, one.used);
        }
      }
    }
  }

  /** An entry that has a chain is refused where that chain's clusters are used already. */
  lemma EntrySeenBefore(img: Bytes, v: Volume, cluster: nat, e: Entry, used: set<nat>, seen: set<nat>)
    requires used <= seen
    requires var one := WalkEntry(img, v, cluster, e, used);
             if one.Fine? then one.used <= seen else one.Restarts? && one.seen <= seen
    ensures var one := WalkEntry(img, v, cluster, e, used);
            var again := WalkEntry(img, v, cluster, e, seen);
            || again == Bad
            || (one == Fine(used, []) && again == Fine(seen, []))
            || (one == Restarts(used) && again == Restarts(seen))
  {
    if e.cluster != 0 {
      ChainWalkSound(img, v, e.cluster, used);
      if ChainWalk(img, v, e.cluster, used).Some? {
        var chain := ChainWalk(img, v, e.cluster, used).value;
        assert chain[0] in Members(chain);
      }
    }
  }

  /** A directory walked again, with the clusters used that had been seen when the walk started over:
      it is refused, unless no chain had been met in it. */
  lemma {:induction false} WalkedAgain(img: Bytes, v: Volume, sectors: seq<nat>, k: nat, used: set<nat>, seen: set<nat>)
    requires k <= 16 * |sectors|
    requires WalkSlots(img, v, 0, 0, sectors, k, used) == Restarts(seen)
    ensures used <= seen
    ensures WalkSlots(img, v, 0, 0, sectors, k, seen) == if used == seen then Restarts(seen) else Bad
    decreases 16 * |sectors| - k
  {
    var off := EntryOffset(sectors, k);
    var e := DecodeEntry(img, off);
    if ByteAt(img, off) == 0xE5 {
      WalkedAgain(img, v, sectors, k + 1, used, seen);
    } else {
      var one := WalkEntry(img, v, 0, e, used);
      if one.Fine? {
        FreeShrinks(v, used, one.used);
        WalkedAgain(img, v, sectors, k + 1, one.used, seen);
      }
      EntrySeenBefore(img, v, 0, e, used, seen);
    }
  }

  /** The program's walk from the root once an entry for a directory with first cluster 0 has made it
      start over. */
  ghost function StartedOver(img: Bytes, v: Volume, parent: nat, seen: set<nat>): Walked {
    WalkSlots(img, v, 0, parent, Range(v.rootLba, v.rootEntries / 16), 0, seen)
  }

  /** Starting over comes to one of two things: if some chain had been met, the second walk meets it
      again and refuses the volume; if none had, it is the first walk over again, and never ends. */
  lemma StartingOver(img: Bytes, v: Volume, parent: nat)
    requires WalkVolume(img, v).Restarts?
    ensures var seen := WalkVolume(img, v).seen;
            StartedOver(img, v, parent, seen) == if seen == {} then WalkVolume(img, v) else Bad
  {
    var seen := WalkVolume(img, v).seen;
    var root := Range(v.rootLba, v.rootEntries / 16);
    WalkedAgain(img, v, root, 0, {}, seen);
    RootHasNoParent(img, v, parent, root, 0, seen);
  }
}
