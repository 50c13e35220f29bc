/** The diff of two records' trees, read back in terms of the records (internal/merkle/differ.go as
    reconcileWithPeer of internal/reconcile/engine.go uses it). */
module RecordDiff {
  import opened Basics
  import opened Paths
  import opened VersionVectors
  import opened FileInfos
  import opened Trees
  import opened TreeBuild
  import opened RootOracle
  import opened Conflict
  import opened Resolve
  import opened Diff
  import opened Tombstones
  import opened Engine
  import opened Pairing

  /** What DiffTrees returns for two trees. */
  ghost function EntriesOf(t: Node, u: Node): (es: seq<PathEntry>) { RenderAll(DiffNodes([], Some(t), Some(u))) }

  // ---- the entries have distinct paths, and their leaves carry them ----

  /** A place in one of two well-formed trees is where its joined path says. */
  lemma {:induction false} PlaceIsItsPath(H: Hasher, t: Node, u: Node, e: DiffEntry, cs: seq<Name>)
    requires WellFormed(H, t) && WellFormed(H, u) && ShowsPlace(e, [], Some(t), Some(u), cs) && cs != []
    ensures e.comps == cs && Split(Join(cs)) == cs
    ensures e.local == Lookup(t, cs) && e.remote == Lookup(u, cs)
  {
    EmptyLeft(cs);
    NodeAtLookup(Some(t), cs);
    NodeAtLookup(Some(u), cs);
    if NodeAt(Some(t), cs).Some? { NodeNamesGood(Some(t), cs); } else { NodeNamesGood(Some(u), cs); }
    SplitOfJoin(cs);
  }

  lemma {:induction false} EntryAtPath(H: Hasher, t: Node, u: Node, e: DiffEntry)
    requires WellFormed(H, t) && WellFormed(H, u) && e in DiffNodes([], Some(t), Some(u))
    ensures e.comps != [] && Split(Join(e.comps)) == e.comps && ShowsPlace(e, [], Some(t), Some(u), e.comps)
    ensures e.local == Lookup(t, e.comps) && e.remote == Lookup(u, e.comps)
  {
    var cs := DiffOrigin([], Some(t), Some(u), e);
    if t.hash != u.hash { ChildrenSorted([], Some(t), Some(u), SortedOf(KidNames(Some(t)) + KidNames(Some(u)))); }
    EmptyLeft(cs);
    PlaceIsItsPath(H, t, u, e, cs);
  }

  lemma {:induction false} LookupCarriesPath(t: Node, S: set<FileInfo>, cs: seq<Name>)
    requires Holds(t, S) && Lookup(t, cs).Some?
    ensures Lookup(t, cs).value.path == Join(cs)
  {
    JoinOfSplit(Lookup(t, cs).value.path);
  }

  lemma {:induction false} EntriesMatch(H: Hasher, t: Node, u: Node, S: set<FileInfo>, R: set<FileInfo>, e: DiffEntry)
    requires TreeOf(H, t, S) && TreeOf(H, u, R) && e in DiffNodes([], Some(t), Some(u))
    ensures PathsMatch(Rendered(e))
  {
    EntryAtPath(H, t, u, e);
    if e.local.Some? { LookupCarriesPath(t, S, e.comps); }
    if e.remote.Some? { LookupCarriesPath(u, R, e.comps); }
  }

  lemma {:induction false} EntriesApart(H: Hasher, t: Node, u: Node, d: DiffEntry, e: DiffEntry)
    requires WellFormed(H, t) && WellFormed(H, u) && CompsLess(d.comps, e.comps)
    requires d in DiffNodes([], Some(t), Some(u)) && e in DiffNodes([], Some(t), Some(u))
    ensures Rendered(d).path != Rendered(e).path
  {
    EntryAtPath(H, t, u, d);
    EntryAtPath(H, t, u, e);
    CompsLessIrreflexive(d.comps);
  }

  /** The entries of the diff of two built trees are at different string paths, and each leaf shown is the one at
      that path. */
  lemma {:induction false} EntriesAreDistinct(H: Hasher, t: Node, u: Node, S: set<FileInfo>, R: set<FileInfo>)
    requires TreeOf(H, t, S) && TreeOf(H, u, R)
    ensures DistinctEntries(EntriesOf(t, u))
  {
    var es := DiffNodes([], Some(t), Some(u));
    DiffSorted([], Some(t), Some(u));
    forall i | 0 <= i < |es| ensures PathsMatch(Rendered(es[i])) { EntriesMatch(H, t, u, S, R, es[i]); }
    forall i, j | 0 <= i < j < |es| ensures Rendered(es[i]).path != Rendered(es[j]).path {
      EntriesApart(H, t, u, es[i], es[j]);
    }
  }

  // ---- places and paths ----

  ghost predicate Built(H: Hasher, t: Node, files: Record) { Keyed(files) && TreeOf(H, t, files.Values) }

  lemma {:induction false} FindIsLookup(H: Hasher, t: Node, files: Record, p: Path)
    requires Built(H, t, files)
    ensures Find(files, p) == Lookup(t, Split(p))
  {
    if p in files {
      assert files[p] in files.Values;
    } else if Lookup(t, Split(p)).Some? {
      var f := Lookup(t, Split(p)).value;
      SplitInjective(f.path, p);
    }
  }

  lemma {:induction false} NodeThrough(n: Side, cs: seq<Name>, ds: seq<Name>)
    ensures NodeAt(n, cs + ds) == NodeAt(NodeAt(n, cs), ds)
    decreases cs
  {
    if cs == [] {
      EmptyLeft(ds);
    } else {
      assert (cs + ds)[1..] == cs[1..] + ds;
      NodeThrough(ChildOf(n, cs[0]), cs[1..], ds);
    }
  }

  /** Above a node there is a directory. */
  lemma {:induction false} DirAbove(n: Side, cs: seq<Name>, k: nat)
    requires k < |cs| && NodeAt(n, cs).Some?
    ensures IsDir(NodeAt(n, cs[..k]))
  {
    NodeThrough(n, cs[..k], cs[k..]);
    assert cs[..k] + cs[k..] == cs;
    NothingAt(cs[k..][1..]);
  }

  lemma {:induction false} NodeIsShaped(n: Side, cs: seq<Name>)
    requires ShapedSide(n) && NodeAt(n, cs).Some? && cs != []
    ensures Shape(NodeAt(n, cs).value) && NonEmpty(NodeAt(n, cs).value)
    decreases cs
  {
    NothingAt(cs[1..]);
    if |cs| > 1 { NodeIsShaped(ChildOf(n, cs[0]), cs[1..]); }
  }

  /** Below a directory there is a file. */
  lemma {:induction false} FileBelow(H: Hasher, t: Node, files: Record, cs: seq<Name>) returns (q: Path)
    requires Built(H, t, files) && cs != [] && IsDir(NodeAt(Some(t), cs))
    ensures q in files && cs < Split(q)
  {
    var n := NodeAt(Some(t), cs).value;
    NodeIsShaped(Some(t), cs);
    var ds := SomeLeaf(n);
    NodeThrough(Some(t), cs, ds);
    NodeAtLookup(Some(n), ds);
    NodeAtLookup(Some(t), cs + ds);
    q := Lookup(t, cs + ds).value.path;
    FindIsLookup(H, t, files, q);
  }

  lemma {:induction false} LeafAtFile(H: Hasher, t: Node, files: Record, p: Path)
    requires Built(H, t, files)
    ensures p in files <==> IsLeaf(NodeAt(Some(t), Split(p)))
    ensures p in files ==> LeafOf(NodeAt(Some(t), Split(p))) == Some(files[p])
  {
    FindIsLookup(H, t, files, p);
    NodeAtLookup(Some(t), Split(p));
  }

  // ---- clashes, in terms of the records ----

  /** A file on one side is strictly above or below p on the other. */
  ghost predicate Clashed(files: Record, index: Record, p: Path)
  {
    exists q :: ClashesWith(files, index, p, q)
  }

  ghost predicate ClashesWith(files: Record, index: Record, p: Path, q: Path)
  {
    ((p in files && q in index) || (p in index && q in files)) && q != p && Blocks(Split(q), Split(p))
  }

  /** The verdict the resolver has for a path, unless a clash keeps it from being asked. */
  ghost predicate Wanted(N: Naming, files: Record, index: Record, p: Path)
  {
    Decide(N, Find(files, p), Find(index, p)).Install? && !Clashed(files, index, p)
  }

  lemma {:induction false} NoBlockingTwins(H: Hasher, t: Node, files: Record, p: Path, q: Path)
    requires Built(H, t, files) && p in files && q in files && p != q
    ensures !Blocks(Split(q), Split(p))
  {
    TreeOfBuildable(H, t, files.Values);
    assert files[p] in files.Values && files[q] in files.Values;
    assert !Exclude(files[q], files[p]);
  }

  /** Where the two trees clash at or above the place cs. */
  ghost predicate ClashAt(t: Node, u: Node, cs: seq<Name>, k: nat)
    requires k <= |cs|
  {
    Clash(NodeAt(Some(t), cs[..k]), NodeAt(Some(u), cs[..k]))
  }

  lemma {:induction false} ClashHere(H: Hasher, t: Node, u: Node, files: Record, index: Record, p: Path)
    requires Built(H, t, files) && Built(H, u, index) && p in index
    requires Clash(NodeAt(Some(t), Split(p)), NodeAt(Some(u), Split(p)))
    ensures Clashed(files, index, p)
  {
    LeafAtFile(H, u, index, p);
    var q := FileBelow(H, t, files, Split(p));
    assert ClashesWith(files, index, p, q);
  }

  lemma {:induction false} FileAt(H: Hasher, t: Node, files: Record, ds: seq<Name>) returns (q: Path)
    requires Built(H, t, files) && IsLeaf(NodeAt(Some(t), ds))
    ensures q in files && Split(q) == ds
  {
    NodeAtLookup(Some(t), ds);
    q := Lookup(t, ds).value.path;
    FindIsLookup(H, t, files, q);
  }

  lemma {:induction false} OnlyLeafClashes(t: Node, u: Node, cs: seq<Name>, k: nat)
    requires k < |cs| && IsLeaf(NodeAt(Some(u), cs)) && ClashAt(t, u, cs, k)
    ensures IsLeaf(NodeAt(Some(t), cs[..k]))
  {
    DirAbove(Some(u), cs, k);
  }

  lemma {:induction false} StrictPrefixBlocks(cs: seq<Name>, k: nat)
    requires k < |cs|
    ensures cs[..k] != cs && Blocks(cs[..k], cs)
  {
  }

  lemma {:induction false} ClashAbove(H: Hasher, t: Node, u: Node, files: Record, index: Record, p: Path, k: nat)
    requires Built(H, t, files) && Built(H, u, index) && p in index && k < |Split(p)| && ClashAt(t, u, Split(p), k)
    ensures Clashed(files, index, p)
  {
    LeafAtFile(H, u, index, p);
    OnlyLeafClashes(t, u, Split(p), k);
    var q := FileAt(H, t, files, Split(p)[..k]);
    StrictPrefixBlocks(Split(p), k);
    assert ClashesWith(files, index, p, q);
  }

  /** A clash of nodes at or above p, where the peer has a file at p, is a clash of the records. */
  lemma {:induction false} NodeClashIsClashed(H: Hasher, t: Node, u: Node, files: Record, index: Record, p: Path, k: nat)
    requires Built(H, t, files) && Built(H, u, index) && p in index && k <= |Split(p)| && ClashAt(t, u, Split(p), k)
    ensures Clashed(files, index, p)
  {
    if k == |Split(p)| {
      assert Split(p)[..k] == Split(p);
      ClashHere(H, t, u, files, index, p);
    } else {
      ClashAbove(H, t, u, files, index, p, k);
    }
  }

  lemma {:induction false} FileAboveClashes(t: Node, u: Node, cs: seq<Name>, ds: seq<Name>)
    requires ds < cs && IsLeaf(NodeAt(Some(t), ds)) && IsLeaf(NodeAt(Some(u), cs))
    ensures ClashAt(t, u, cs, |ds|)
  {
    assert cs[..|ds|] == ds;
    DirAbove(Some(u), cs, |ds|);
  }

  lemma {:induction false} FileBelowClashes(t: Node, u: Node, cs: seq<Name>, ds: seq<Name>)
    requires cs < ds && IsLeaf(NodeAt(Some(t), ds)) && IsLeaf(NodeAt(Some(u), cs))
    ensures ClashAt(t, u, cs, |cs|)
  {
    assert cs[..|cs|] == cs == ds[..|cs|];
    DirAbove(Some(t), ds, |cs|);
  }

  lemma {:induction false} BlockingLeavesClash(t: Node, u: Node, cs: seq<Name>, ds: seq<Name>) returns (k: nat)
    requires IsLeaf(NodeAt(Some(t), ds)) && IsLeaf(NodeAt(Some(u), cs)) && cs != ds && Blocks(ds, cs)
    ensures k <= |cs| && ClashAt(t, u, cs, k)
  {
    if ds <= cs {
      k := |ds|;
      FileAboveClashes(t, u, cs, ds);
    } else {
      k := |cs|;
      FileBelowClashes(t, u, cs, ds);
    }
  }

  /** A file of the local record strictly above or below p is a clash of nodes at or above p. */
  lemma {:induction false} BlockingIsNodeClash(H: Hasher, t: Node, u: Node, files: Record, index: Record, p: Path, q: Path) returns (k: nat)
    requires Built(H, t, files) && Built(H, u, index) && p in index && q in files
    requires Split(p) != Split(q) && Blocks(Split(q), Split(p))
    ensures k <= |Split(p)| && ClashAt(t, u, Split(p), k)
  {
    LeafAtFile(H, u, index, p);
    LeafAtFile(H, t, files, q);
    k := BlockingLeavesClash(t, u, Split(p), Split(q));
  }

  /** And a clash of the records at such a path is a clash of nodes at or above it. */
  lemma {:induction false} ClashedIsNodeClash(H: Hasher, t: Node, u: Node, files: Record, index: Record, p: Path) returns (k: nat)
    requires Built(H, t, files) && Built(H, u, index) && p in index && Clashed(files, index, p)
    ensures k <= |Split(p)| && ClashAt(t, u, Split(p), k)
  {
    var q :| ClashesWith(files, index, p, q);
    if q in index { NoBlockingTwins(H, u, index, p, q); }
    if Split(q) == Split(p) { SplitInjective(p, q); }
    k := BlockingIsNodeClash(H, t, u, files, index, p, q);
  }

  // ---- verdicts of the diff are verdicts of the records ----

  lemma {:induction false} SameEssenceIsNoOp(N: Naming, f: FileInfo, g: FileInfo)
    requires Canonical(f.version) && EssenceOf(f) == EssenceOf(g)
    ensures ResolvePair(N, f, g) == NoOp
  {
    LeqReflexive(f.version);
  }

  lemma {:induction false} VerdictOfPair(N: Naming, e: DiffEntry)
    ensures Verdict(N, Rendered(e)).Install?
            <==> !e.localDir && !e.remoteDir && e.remote.Some? && Decide(N, e.local, e.remote).Install?
  {
  }

  lemma {:induction false} EntryIsNaive(t: Node, u: Node, e: DiffEntry)
    requires DiffIsNaive(Some(t), Some(u)) && e in DiffNodes([], Some(t), Some(u))
    ensures !BelowClash(Some(t), Some(u), e.comps)
    ensures e == Entry(e.comps, NodeAt(Some(t), e.comps), NodeAt(Some(u), e.comps))
  {
    var cs :| Naive([], Some(t), Some(u), cs) == Some(e);
    EmptyLeft(cs);
  }

  lemma {:induction false} ClashShows(cs: seq<Name>, a: Side, b: Side)
    requires !Entry(cs, a, b).localDir && !Entry(cs, a, b).remoteDir
    ensures !Clash(a, b)
  {
  }

  lemma {:induction false} NoClashUpTo(t: Node, u: Node, cs: seq<Name>, k: nat)
    requires !BelowClash(Some(t), Some(u), cs) && !Clash(NodeAt(Some(t), cs), NodeAt(Some(u), cs)) && k <= |cs|
    ensures !ClashAt(t, u, cs, k)
  {
    if k == |cs| { assert cs[..k] == cs; }
  }

  lemma {:induction false} NoClashOnTheWay(t: Node, u: Node, e: DiffEntry, k: nat)
    requires DiffIsNaive(Some(t), Some(u)) && e in DiffNodes([], Some(t), Some(u)) && !e.localDir && !e.remoteDir
    requires k <= |e.comps|
    ensures !ClashAt(t, u, e.comps, k)
  {
    EntryIsNaive(t, u, e);
    ClashShows(e.comps, NodeAt(Some(t), e.comps), NodeAt(Some(u), e.comps));
    NoClashUpTo(t, u, e.comps, k);
  }

  /** Without a collision, an entry that is not flagged lies under no clash. */
  lemma {:induction false} UnflaggedIsUnclashed(H: Hasher, t: Node, u: Node, files: Record, index: Record, e: DiffEntry)
    requires Built(H, t, files) && Built(H, u, index) && DiffIsNaive(Some(t), Some(u))
    requires e in DiffNodes([], Some(t), Some(u)) && !e.localDir && !e.remoteDir && e.remote.Some?
    ensures !Clashed(files, index, Rendered(e).path)
  {
    EntryAtPath(H, t, u, e);
    FindIsLookup(H, u, index, Rendered(e).path);
    if Clashed(files, index, Rendered(e).path) {
      var k := ClashedIsNodeClash(H, t, u, files, index, Rendered(e).path);
      NoClashOnTheWay(t, u, e, k);
    }
  }

  /** An entry with a create or tombstone verdict is at a wanted path. */
  lemma {:induction false} InstallIsWanted(H: Hasher, N: Naming, t: Node, u: Node, files: Record, index: Record, e: DiffEntry)
    requires Built(H, t, files) && Built(H, u, index) && DiffIsNaive(Some(t), Some(u))
    requires e in DiffNodes([], Some(t), Some(u)) && Verdict(N, Rendered(e)).Install?
    ensures Wanted(N, files, index, Rendered(e).path)
  {
    VerdictOfPair(N, e);
    EntryAtPath(H, t, u, e);
    FindIsLookup(H, t, files, Rendered(e).path);
    FindIsLookup(H, u, index, Rendered(e).path);
    UnflaggedIsUnclashed(H, t, u, files, index, e);
  }

  lemma {:induction false} WantedDiffers(H: Hasher, N: Naming, t: Node, u: Node, files: Record, index: Record, p: Path)
    requires Built(H, t, files) && Built(H, u, index) && CanonicalRecord(files) && Wanted(N, files, index, p)
    ensures p in index && EssenceAt(t, Split(p)) != EssenceAt(u, Split(p))
  {
    FindIsLookup(H, t, files, p);
    FindIsLookup(H, u, index, p);
    if p in files && EssenceAt(t, Split(p)) == EssenceAt(u, Split(p)) { SameEssenceIsNoOp(N, files[p], index[p]); }
  }

  lemma {:induction false} UnclashedPlaces(H: Hasher, t: Node, u: Node, files: Record, index: Record, p: Path)
    requires Built(H, t, files) && Built(H, u, index) && p in index && !Clashed(files, index, p)
    ensures forall k | 0 <= k <= |Split(p)| :: !ClashAt(t, u, Split(p), k)
  {
    forall k | 0 <= k <= |Split(p)| ensures !ClashAt(t, u, Split(p), k) {
      if ClashAt(t, u, Split(p), k) { NodeClashIsClashed(H, t, u, files, index, p, k); }
    }
  }

  lemma {:induction false} FlagIsClash(t: Node, u: Node, e: DiffEntry, cs: seq<Name>, k: nat)
    requires DiffIsNaive(Some(t), Some(u)) && e in DiffNodes([], Some(t), Some(u))
    requires k <= |cs| && e.comps == cs[..k] && (e.localDir || e.remoteDir)
    ensures ClashAt(t, u, cs, k)
  {
    EntryIsNaive(t, u, e);
  }

  /** A differing path of the peer's under no clash is reported as it is. */
  lemma {:induction false} UnclashedIsReported(H: Hasher, t: Node, u: Node, files: Record, index: Record, p: Path) returns (e: DiffEntry)
    requires Built(H, t, files) && Built(H, u, index) && DiffIsNaive(Some(t), Some(u))
    requires p in index && !Clashed(files, index, p) && EssenceAt(t, Split(p)) != EssenceAt(u, Split(p))
    ensures e in DiffNodes([], Some(t), Some(u)) && e.comps == Split(p) && !e.localDir && !e.remoteDir
    ensures e.local == Lookup(t, Split(p)) && e.remote == Lookup(u, Split(p))
  {
    UnclashedPlaces(H, t, u, files, index, p);
    e := DifferingIsReported(t, u, Split(p));
  }

  lemma {:induction false} DifferingIsReported(t: Node, u: Node, cs: seq<Name>) returns (e: DiffEntry)
    requires DiffIsNaive(Some(t), Some(u)) && EssenceAt(t, cs) != EssenceAt(u, cs)
    requires forall k | 0 <= k <= |cs| :: !ClashAt(t, u, cs, k)
    ensures e in DiffNodes([], Some(t), Some(u)) && e.comps == cs && !e.localDir && !e.remoteDir
    ensures e.local == Lookup(t, cs) && e.remote == Lookup(u, cs)
  {
    var k := NothingMissed(t, u, cs);
    e :| e in DiffNodes([], Some(t), Some(u)) && e.comps == cs[..k] && e.local == Lookup(t, cs[..k])
         && e.remote == Lookup(u, cs[..k]) && (k < |cs| ==> e.localDir || e.remoteDir);
    if e.localDir || e.remoteDir { FlagIsClash(t, u, e, cs, k); }
    assert cs[..|cs|] == cs;
  }

  /** Every wanted path has such an entry. */
  lemma {:induction false} WantedIsInstall(H: Hasher, N: Naming, t: Node, u: Node, files: Record, index: Record, p: Path)
    returns (e: DiffEntry)
    requires Built(H, t, files) && Built(H, u, index) && DiffIsNaive(Some(t), Some(u)) && CanonicalRecord(files)
    requires Wanted(N, files, index, p)
    ensures e in DiffNodes([], Some(t), Some(u)) && Rendered(e).path == p && Verdict(N, Rendered(e)).Install?
  {
    WantedDiffers(H, N, t, u, files, index, p);
    e := UnclashedIsReported(H, t, u, files, index, p);
    FindIsLookup(H, t, files, p);
    FindIsLookup(H, u, index, p);
    VerdictOfPair(N, e);
    JoinOfSplit(p);
  }

  lemma {:induction false} InstallsHere(H: Hasher, N: Naming, t: Node, u: Node, files: Record, index: Record, p: Path)
    requires Built(H, t, files) && Built(H, u, index) && DiffIsNaive(Some(t), Some(u)) && CanonicalRecord(files)
    ensures Installs(N, EntriesOf(t, u), p) <==> Wanted(N, files, index, p)
  {
    var ds, es := DiffNodes([], Some(t), Some(u)), EntriesOf(t, u);
    if Installs(N, es, p) {
      var i :| 0 <= i < |es| && es[i].path == p && Verdict(N, es[i]).Install?;
      assert es[i] == Rendered(ds[i]) && ds[i] in ds;
      InstallIsWanted(H, N, t, u, files, index, ds[i]);
    }
    if Wanted(N, files, index, p) {
      var e := WantedIsInstall(H, N, t, u, files, index, p);
      var i :| 0 <= i < |ds| && ds[i] == e;
      assert es[i] == Rendered(e);
    }
  }

  /** The verdicts of the diff are exactly the verdicts the resolver has for the two records, path by path. */
  lemma {:induction false} InstallsAreWanted(H: Hasher, N: Naming, t: Node, u: Node, files: Record, index: Record)
    requires Built(H, t, files) && Built(H, u, index) && DiffIsNaive(Some(t), Some(u)) && CanonicalRecord(files)
    ensures forall p :: Installs(N, EntriesOf(t, u), p) <==> Wanted(N, files, index, p)
  {
    forall p ensures Installs(N, EntriesOf(t, u), p) <==> Wanted(N, files, index, p) {
      InstallsHere(H, N, t, u, files, index, p);
    }
  }

  // ---- no rename is missed ----

  /** Nothing is fetched alone while a path of a live regular file of that very content is removed alone. */
  ghost predicate RenamesPaired(log: seq<Dispatch>, files: Record)
  {
    forall d, e | d in log && e in log && d.DoFetch? && e.DoRemove? && e.leaf.path in files ::
      var f := files[e.leaf.path];
      !(!f.deleted && f.ftype == TypeFile && f.contentHash == d.leaf.contentHash)
  }

  lemma {:induction false} TombKnowsRecord(H: Hasher, N: Naming, t: Node, u: Node, files: Record, index: Record, r: TombInstall)
    requires Built(H, t, files) && Built(H, u, index) && r in Tombs(N, EntriesOf(t, u))
    requires r.leaf.path in files && !files[r.leaf.path].deleted && files[r.leaf.path].ftype == TypeFile
    ensures r.hasOld && r.oldHash == files[r.leaf.path].contentHash
  {
    var es := DiffNodes([], Some(t), Some(u));
    EntriesAreDistinct(H, t, u, files.Values, index.Values);
    TombKnowsEntry(N, EntriesOf(t, u), r);
    var i :| 0 <= i < |EntriesOf(t, u)|
      && EntriesOf(t, u)[i].path == r.leaf.path
      && (r.hasOld <==> EntriesOf(t, u)[i].local.Some? && !EntriesOf(t, u)[i].local.value.deleted
                        && EntriesOf(t, u)[i].local.value.ftype == TypeFile)
      && (r.hasOld ==> r.oldHash == EntriesOf(t, u)[i].local.value.contentHash);
    EntryAtPath(H, t, u, es[i]);
    FindIsLookup(H, t, files, r.leaf.path);
  }

  /** Every tombstone knows the bytes of a live regular file on record at its path. */
  ghost predicate TombsKnow(ts: seq<TombInstall>, files: Record)
  {
    forall r | r in ts && r.leaf.path in files && !files[r.leaf.path].deleted && files[r.leaf.path].ftype == TypeFile ::
      r.hasOld && r.oldHash == files[r.leaf.path].contentHash
  }

  lemma {:induction false} NoneLeftBehind(log: seq<Dispatch>, cs: seq<FileInfo>, ts: seq<TombInstall>, files: Record)
    requires PairedUp(log, ts) && SoundLog(log, cs, ts) && TombsKnow(ts, files)
    ensures RenamesPaired(log, files)
  {
    forall d, e | d in log && e in log && d.DoFetch? && e.DoRemove? && e.leaf.path in files
      ensures var f := files[e.leaf.path]; !(!f.deleted && f.ftype == TypeFile && f.contentHash == d.leaf.contentHash)
    {
      assert SoundDispatch(e, cs, ts);
      var r :| r in ts && r.leaf == e.leaf;
      assert !Reusable(d.leaf, r);
    }
  }

  lemma {:induction false} PairedMeansRenames(H: Hasher, N: Naming, t: Node, u: Node, files: Record, index: Record,
                                              log: seq<Dispatch>)
    requires Built(H, t, files) && Built(H, u, index) && PairedUp(log, Tombs(N, EntriesOf(t, u)))
    requires SoundLog(log, Creates(N, EntriesOf(t, u)), Tombs(N, EntriesOf(t, u)))
    ensures RenamesPaired(log, files)
  {
    forall r | r in Tombs(N, EntriesOf(t, u)) && r.leaf.path in files && !files[r.leaf.path].deleted
               && files[r.leaf.path].ftype == TypeFile
      ensures r.hasOld && r.oldHash == files[r.leaf.path].contentHash
    {
      TombKnowsRecord(H, N, t, u, files, index, r);
    }
    NoneLeftBehind(log, Creates(N, EntriesOf(t, u)), Tombs(N, EntriesOf(t, u)), files);
  }

  // ---- reconcileWithPeer ----

  /** Builds both trees, diffs them and dispatches. Every path for which the resolver has a create or a tombstone,
      that is under no clash and not in flight, is dispatched exactly once, and no other path is; or (x, y) is a
      collision inside the two trees. No rename is missed. An unbuildable record makes it give up. */
  method ReconcileRecords(queue: PeerQueue, H: Hasher, N: Naming, files: Record, index: Record)
    returns (built: bool, ghost t: Node, ghost u: Node, ghost x: Bytes, ghost y: Bytes)
    requires Keyed(files) && Keyed(index) && CanonicalRecord(files) && queue.log == []
    modifies queue
    ensures built <==> BuildableSet(files.Values) && BuildableSet(index.Values)
    ensures !built ==> queue.log == [] && queue.inflight == old(queue.inflight) && queue.tasks == old(queue.tasks)
                       && queue.removed == old(queue.removed)
    ensures built ==> Built(H, t, files) && Built(H, u, index) && RenamesPaired(queue.log, files)
    ensures built ==>
              || CollisionBetween(H, t, u, x, y)
              || forall p :: Mentions(queue.log, p) == if Wanted(N, files, index, p) && p !in old(queue.inflight) then 1 else 0
  {
    t, u, x, y := EmptyDir, EmptyDir, [], [];
    var localSet := Enumerate(files);
    var peerSet := Enumerate(index);
    var localTree := BuildTree(H, localSet);
    var peerTree := BuildTree(H, peerSet);
    EnumerationIsBuildable(files, localSet);
    EnumerationIsBuildable(index, peerSet);
    if localTree.None? || peerTree.None? { return false, t, u, x, y; }
    t, u := localTree.value, peerTree.value;
    var entries := DiffTrees(localTree, peerTree);
    assert entries == EntriesOf(t, u);
    EntriesAreDistinct(H, t, u, files.Values, index.Values);
    x, y := DiffCorrect(H, Some(t), Some(u));
    queue.ReconcileEntries(N, files, entries);
    PairedMeansRenames(H, N, t, u, files, index, queue.log);
    if DiffIsNaive(Some(t), Some(u)) { InstallsAreWanted(H, N, t, u, files, index); }
    built := true;
  }

  lemma {:induction false} EnumerationIsBuildable(files: Record, fis: seq<FileInfo>)
    requires Enumerates(fis, files)
    ensures Buildable(fis) <==> BuildableSet(files.Values)
  {
    if BuildableSet(files.Values) {
      EnumerationBuildable(files, fis);
    } else if Buildable(fis) {
      forall f | f in files.Values ensures GoodPath(f.path) { assert f in SetOf(fis); }
      forall f, g | f in files.Values && g in files.Values && f != g ensures !Exclude(f, g) {
        assert f in SetOf(fis) && g in SetOf(fis);
        BlocksBothWays(f, g);
      }
    }
  }

  lemma {:induction false} BlocksBothWays(f: FileInfo, g: FileInfo)
    ensures Exclude(f, g) <==> Exclude(g, f)
  {
  }
}
