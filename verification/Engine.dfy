/** The reconcile core (internal/reconcile/engine.go): the recorded files and the cached tree.

Valid() says that whenever the record has a tree at all, the cached root is that tree's root. */
module Engine {
  import opened Basics
  import opened Paths
  import opened VersionVectors
  import opened FileInfos
  import opened StructuralCodec
  import opened Trees
  import opened TreeBuild
  import opened RootOracle
  import opened Conflict
  import opened Resolve
  import opened Detection
  import opened Tombstones

  // ---- coherence of the cached root ----

  ghost predicate Keyed(files: Record) { forall p | p in files :: files[p].path == p }

  ghost predicate CoherentWith(H: Hasher, tree: Node, files: Record)
  {
    forall t | TreeOf(H, t, files.Values) :: t.hash == tree.hash
  }

  lemma {:induction false} InsertAll(S: set<FileInfo>) returns (n: Node)
    requires BuildableSet(S)
    ensures n.Dir? && Shape(n) && Holds(n, S)
  {
    if S == {} {
      n := EmptyDir;
      forall cs ensures Lookup(n, cs) == None { EmptyLookup(cs); }
    } else {
      var f :| f in S;
      var m := InsertAll(S - {f});
      InsertOne(m, S - {f}, f);
      n := Insert(m, Split(f.path), f).value;
      Reunite(S, f);
    }
  }

  /** Every buildable set has a tree. */
  lemma {:induction false} TreeExists(H: Hasher, S: set<FileInfo>) returns (t: Node)
    requires BuildableSet(S)
    ensures TreeOf(H, t, S)
  {
    var n := InsertAll(S);
    RehashHolds(H, n, S);
    t := Rehashed(H, n);
  }

  /** g is f up to fields that are not hashed, at every path. */
  ghost predicate SameHashed(f: Record, g: Record)
  {
    f.Keys == g.Keys && forall p | p in f :: EssenceOf(f[p]) == EssenceOf(g[p])
  }

  lemma {:induction false} SameHashedEssences(f: Record, g: Record)
    requires Keyed(f) && Keyed(g) && SameHashed(f, g)
    ensures PathEssences(f.Values) <= PathEssences(g.Values)
  {
    forall x | x in f.Values ensures (x.path, EssenceOf(x)) in PathEssences(g.Values) {
      var p :| p in f && f[p] == x;
      assert g[p] in g.Values;
      assert (g[p].path, EssenceOf(g[p])) in PathEssences(g.Values);
    }
  }

  lemma {:induction false} SameHashedBuildable(f: Record, g: Record)
    requires Keyed(f) && Keyed(g) && SameHashed(f, g) && BuildableSet(g.Values)
    ensures BuildableSet(f.Values)
  {
    forall x | x in f.Values ensures GoodPath(x.path) { assert g[x.path] in g.Values; }
    forall x, y | x in f.Values && y in f.Values && x != y ensures !Exclude(x, y) {
      assert g[x.path] in g.Values && g[y.path] in g.Values;
      assert !Exclude(g[x.path], g[y.path]);
    }
  }

  lemma {:induction false} UnhashedSameRoot(H: Hasher, f: Record, g: Record, u: Node) returns (t: Node)
    requires Keyed(f) && Keyed(g) && SameHashed(f, g) && TreeOf(H, u, g.Values)
    ensures TreeOf(H, t, f.Values) && t.hash == u.hash
  {
    TreeOfBuildable(H, u, g.Values);
    SameHashedBuildable(f, g);
    t := TreeExists(H, f.Values);
    SameHashedEssences(f, g);
    SameHashedEssences(g, f);
    var x, y := RootIsFaithful(H, t, u, f.Values, g.Values);
  }

  /** Changing only unhashed fields (an mtime) needs no rebuild. */
  lemma {:induction false} UnhashedKeepsCoherence(H: Hasher, tree: Node, f: Record, g: Record)
    requires Keyed(f) && Keyed(g) && SameHashed(f, g) && CoherentWith(H, tree, f)
    ensures CoherentWith(H, tree, g)
  {
    forall u | TreeOf(H, u, g.Values) ensures u.hash == tree.hash {
      var t := UnhashedSameRoot(H, f, g, u);
    }
  }

  /** A loop over the record that still has todo to rewrite. */
  ghost predicate Halfway(files: Record, was: Record, want: Record, todo: set<Path>)
  {
    && todo <= files.Keys && files.Keys == was.Keys == want.Keys
    && forall p | p in files :: files[p] == if p in todo then was[p] else want[p]
  }

  lemma {:induction false} HalfwayStep(files: Record, was: Record, want: Record, todo: set<Path>, path: Path)
    requires Halfway(files, was, want, todo) && path in todo
    ensures Halfway(files[path := want[path]], was, want, todo - {path})
    ensures files[path := want[path]] != was <==> files != was || want[path] != was[path]
  {
    var next := files[path := want[path]];
    if files != was {
      var p :| p in files && files[p] != was[p];
      assert next[p] != was[p];
    } else if want[path] != was[path] {
      assert next[path] != was[path];
    }
  }

  ghost predicate Enumerates(fis: seq<FileInfo>, files: Record)
  {
    SetOf(fis) == files.Values && forall i, j | 0 <= i < j < |fis| :: fis[i].path != fis[j].path
  }

  lemma {:induction false} EnumerationBuildable(files: Record, fis: seq<FileInfo>)
    requires Enumerates(fis, files) && BuildableSet(files.Values)
    ensures Buildable(fis)
  {
    forall i | 0 <= i < |fis| ensures fis[i] in files.Values { assert fis[i] in SetOf(fis); }
  }

  /** The leaves of a record as a list, in any order (snapshotFilesLocked). */
  method Enumerate(files: Record) returns (fis: seq<FileInfo>)
    requires Keyed(files)
    ensures Enumerates(fis, files)
  {
    fis := [];
    var todo := files.Keys;
    while todo != {}
      invariant todo <= files.Keys
      invariant forall f :: f in SetOf(fis) <==> f.path in files.Keys - todo && files[f.path] == f
      invariant forall i, j | 0 <= i < j < |fis| :: fis[i].path != fis[j].path
      decreases todo
    {
      var p :| p in todo;
      ghost var before := fis;
      fis := fis + [files[p]];
      AppendSet(before, files[p]);
      forall i | 0 <= i < |before| ensures before[i].path != p { assert before[i] in SetOf(before); }
      todo := todo - {p};
    }
    forall f ensures f in SetOf(fis) <==> f in files.Values {
      if f in files.Values { assert f.path in files && files[f.path] == f; }
    }
    assert SetOf(fis) == files.Values;
  }

  lemma {:induction false} AppendSet(fis: seq<FileInfo>, f: FileInfo)
    ensures SetOf(fis + [f]) == SetOf(fis) + {f}
  {
    assert (fis + [f])[..|fis|] == fis;
    assert (fis + [f])[..|fis| + 1] == fis + [f];
    SetOfStep(fis + [f], |fis|);
  }

  // ---- detection over a whole record ----

  function Detected(self: ShortID, files: Record, disk: Record, peers: Peers): (r: Record)
  {
    map p | p in files.Keys + disk.Keys && RescanAt(self, Find(files, p), Find(disk, p), InFlight(peers, p)).Some?
      :: RescanAt(self, Find(files, p), Find(disk, p), InFlight(peers, p)).value
  }

  /** The broadcast delta holds exactly the authored leaves, as newly recorded. */
  ghost predicate IsDelta(delta: seq<FileInfo>, self: ShortID, was: Record, disk: Record, peers: Peers)
  {
    forall f :: f in delta <==>
                && Find(Detected(self, was, disk, peers), f.path) == Some(f)
                && InDelta(Find(was, f.path), Find(disk, f.path), InFlight(peers, f.path))
  }

  /** The paths outside todo have been looked at by the tombstone GC. */
  ghost predicate Collecting(files: Record, was: Record, peers: Peers, todo: set<Path>)
  {
    && todo <= was.Keys
    && forall p :: Find(files, p) == if p in was && (p in todo || !Collectable(was[p], peers)) then Some(was[p]) else None
  }

  lemma {:induction false} CollectingStep(files: Record, was: Record, peers: Peers, todo: set<Path>, path: Path)
    requires Collecting(files, was, peers, todo) && path in todo
    ensures path in files && files[path] == was[path]
    ensures Collectable(was[path], peers) ==> Collecting(files - {path}, was, peers, todo - {path}) && files - {path} != was
    ensures !Collectable(was[path], peers) ==> Collecting(files, was, peers, todo - {path})
  {
    assert Find(files, path) == Some(was[path]);
    assert path !in files - {path};
  }

  lemma {:induction false} CollectingEnds(files: Record, was: Record, peers: Peers)
    requires Collecting(files, was, peers, {}) && peers != map[]
    ensures files == AfterGC(was, peers)
  {
    SameFinds(files, AfterGC(was, peers));
  }

  /** The record after a rescan: detection, then tombstone GC. */
  function AfterRescan(self: ShortID, files: Record, disk: Record, peers: Peers): (r: Record)
  {
    AfterGC(Detected(self, files, disk, peers), peers)
  }

  ghost predicate GoodDisk(disk: Record) { forall p | p in disk :: Scanned(disk[p]) && disk[p].path == p }

  lemma {:induction false} ScanIsGoodDisk(scan: seq<FileInfo>)
    requires GoodScan(scan)
    ensures GoodDisk(MapOf(scan))
  {
    if scan != [] {
      var init := scan[..|scan| - 1];
      assert forall i | 0 <= i < |init| :: init[i] == scan[i];
      ScanIsGoodDisk(init);
    }
  }

  /** Some leaf of the delta is at p. */
  ghost predicate Authors(delta: seq<FileInfo>, p: Path) { exists f :: f in delta && f.path == p }

  /** The delta has a leaf at p exactly when detection authors p. */
  lemma {:induction false} DeltaAt(delta: seq<FileInfo>, self: ShortID, was: Record, disk: Record, peers: Peers, p: Path)
    requires Keyed(was) && GoodDisk(disk) && IsDelta(delta, self, was, disk, peers)
    ensures Authors(delta, p) <==> InDelta(Find(was, p), Find(disk, p), InFlight(peers, p))
  {
    if InDelta(Find(was, p), Find(disk, p), InFlight(peers, p)) {
      assert Detected(self, was, disk, peers)[p] in delta;
    }
  }

  lemma {:induction false} RescanAgainAt(self: ShortID, files: Record, disk: Record, peers: Peers, p: Path)
    requires GoodDisk(disk)
    ensures var r := AfterRescan(self, files, disk, peers);
            && !InDelta(Find(r, p), Find(disk, p), InFlight(peers, p))
            && RescanAt(self, Find(r, p), Find(disk, p), InFlight(peers, p)) == Find(r, p)
  {
    RescanIdempotent(self, Find(files, p), Find(disk, p), InFlight(peers, p));
  }

  lemma {:induction false} DetectedAgain(self: ShortID, r: Record, disk: Record, peers: Peers)
    requires forall p :: RescanAt(self, Find(r, p), Find(disk, p), InFlight(peers, p)) == Find(r, p)
    ensures Detected(self, r, disk, peers) == r
  {
    forall p ensures Find(Detected(self, r, disk, peers), p) == Find(r, p) {
      assert RescanAt(self, Find(r, p), Find(disk, p), InFlight(peers, p)) == Find(r, p);
    }
    SameFinds(Detected(self, r, disk, peers), r);
  }

  lemma {:induction false} SameFinds(f: Record, g: Record)
    requires forall p :: Find(f, p) == Find(g, p)
    ensures f == g
  {
    forall p ensures (p in f <==> p in g) && (p in f ==> f[p] == g[p]) { assert Find(f, p) == Find(g, p); }
  }

  lemma {:induction false} CollectsOnce(files: Record, peers: Peers)
    ensures AfterGC(AfterGC(files, peers), peers) == AfterGC(files, peers)
  {
  }

  lemma {:induction false} EmptyOrNot(fis: seq<FileInfo>)
    ensures fis == [] || exists f :: f in fis
  {
    if fis != [] { assert fis[0] in fis; }
  }

  /** A second rescan of the same disk, tombstone GC included, changes no leaf and has nothing to broadcast. */
  lemma {:induction false} RescanSettles(self: ShortID, files: Record, disk: Record, peers: Peers, delta: seq<FileInfo>)
    requires GoodDisk(disk) && IsDelta(delta, self, AfterRescan(self, files, disk, peers), disk, peers)
    ensures AfterRescan(self, AfterRescan(self, files, disk, peers), disk, peers) == AfterRescan(self, files, disk, peers)
    ensures delta == []
  {
    var r := AfterRescan(self, files, disk, peers);
    forall p
      ensures !InDelta(Find(r, p), Find(disk, p), InFlight(peers, p))
      ensures RescanAt(self, Find(r, p), Find(disk, p), InFlight(peers, p)) == Find(r, p)
    {
      RescanAgainAt(self, files, disk, peers, p);
    }
    DetectedAgain(self, r, disk, peers);
    CollectsOnce(Detected(self, files, disk, peers), peers);
    EmptyOrNot(delta);
  }

  /** The second loop of rescan: live leaves that the scan did not find become tombstones. */
  function Vanished(self: ShortID, files: Record, present: Record): (r: Record)
  {
    map p | p in files :: if p in present || files[p].deleted then files[p] else SetDeleted(files[p], self)
  }

  /** fis holds exactly the leaves of the record at these paths. */
  ghost predicate LeavesAt(fis: seq<FileInfo>, files: Record, paths: set<Path>)
  {
    forall f :: f in fis <==> f.path in paths && Find(files, f.path) == Some(f)
  }

  lemma {:induction false} LeavesAtStep(fis: seq<FileInfo>, files: Record, hits: set<Path>, todo: set<Path>, p: Path)
    requires LeavesAt(fis, files, hits - todo) && p in todo && p in files && files[p].path == p
    ensures LeavesAt(if p in hits then fis + [files[p]] else fis, files, hits - (todo - {p}))
  {
  }

  /** Live content without history, against a live entry of the peer. */
  predicate Reseedable(lf: FileInfo, pf: Option<FileInfo>)
  {
    !lf.deleted && lf.version == [] && pf.Some? && !pf.value.deleted
  }

  /** Reseeding never conflicts and never loses the local edit: content the peer also has becomes an agreement,
      other content supersedes the peer's and the peer takes it. Without the reseed it would have been replaced. */
  lemma {:induction false} ReseedKeepsTheEdit(N: Naming, self: ShortID, lf: FileInfo, pf: FileInfo)
    requires Sane(lf) && Sane(pf) && lf.path == pf.path && Reseedable(lf, Some(pf))
    requires VersionVectors.At(pf.version, self) < TWO64 - 1
    ensures var f := Reseeded(self, lf, Some(pf));
            && ResolvePair(N, f, pf) == NoOp
            && ResolvePair(N, pf, f) == if lf.contentHash == pf.contentHash then NoOp else Install(f)
    ensures pf.version != [] ==> ResolvePair(N, lf, pf) == Install(pf)
  {
    BumpDominates(pf.version, self);
    LeqReflexive(pf.version);
    LeqReflexive(lf.version);
    MergedAbsorbs(pf.version, Bumped(pf.version, self));
    OrderPointwise(lf.version, pf.version);
    MergedAbsorbs(lf.version, pf.version);
  }

  /** Only live content without history is reseeded, only from live content of the peer, and only in its vector. */
  lemma {:induction false} ReseedTouches(self: ShortID, lf: FileInfo, pf: Option<FileInfo>)
    ensures Reseeded(self, lf, pf).(version := lf.version) == lf
    ensures Reseeded(self, lf, pf) != lf ==> !lf.deleted && lf.version == [] && pf.Some? && !pf.value.deleted
    ensures !lf.deleted && lf.version == [] && pf.Some? && !pf.value.deleted ==>
              Reseeded(self, lf, pf).version
              == if lf.contentHash == pf.value.contentHash then pf.value.version else Bumped(pf.value.version, self)
  {
  }

  function ReseedPaths(files: Record, index: Record): (r: set<Path>)
  {
    set p | p in files && Reseedable(files[p], Find(index, p))
  }

  function Reseeded(self: ShortID, lf: FileInfo, pf: Option<FileInfo>): (f: FileInfo)
  {
    if !Reseedable(lf, pf) then lf
    else if lf.contentHash != pf.value.contentHash then lf.(version := Bumped(pf.value.version, self))
    else lf.(version := pf.value.version)
  }

  function AfterReseed(self: ShortID, files: Record, index: Record): (r: Record)
  {
    map p | p in files :: Reseeded(self, files[p], Find(index, p))
  }

  /** The leaf on record after start-up: recovered, then pruned when the paired devices are known. */
  function StartAt(self: ShortID, p: Option<FileInfo>, s: Option<FileInfo>, paired: Option<set<ShortID>>): (r: Option<FileInfo>)
  {
    var f := RestartAt(self, p, s);
    if f.Some? && paired.Some? then Some(f.value.(version := Pruned(f.value.version, paired.value))) else f
  }

  /** delta holds the tombstones of the vanished paths outside todo. */
  ghost predicate TombsOf(delta: seq<FileInfo>, self: ShortID, was: Record, present: Record, todo: set<Path>)
  {
    forall f :: f in delta <==> f.path in was && f.path !in present && f.path !in todo
                                && !was[f.path].deleted && f == SetDeleted(was[f.path], self)
  }

  lemma {:induction false} TombsStep(delta: seq<FileInfo>, self: ShortID, was: Record, present: Record, todo: set<Path>, path: Path)
    requires Keyed(was) && TombsOf(delta, self, was, present, todo) && path in todo && path in was
    ensures if path in present || was[path].deleted then TombsOf(delta, self, was, present, todo - {path})
            else TombsOf(delta + [SetDeleted(was[path], self)], self, was, present, todo - {path})
  {
  }

  /** A local stat of one path. */
  datatype Stat = Gone | Directory | ScanFailed | Present(fi: FileInfo)

  datatype Completion = Completion(
    leaf: FileInfo, ok: bool, advertise: bool, applyTomb: bool, conflictAbort: bool, peer: ShortID)

  /** This very deletion is on record. */
  predicate AlreadyBuried(files: Record, t: FileInfo)
  {
    t.path in files && files[t.path].deleted && files[t.path].version == t.version
  }

  ghost predicate Unmarked(was: Peers, now: Peers, short: ShortID, key: Path)
  {
    if exists d | d in was :: was[d].short == short
    then exists d | d in was :: was[d].short == short && now == was[d := was[d].(inflight := was[d].inflight - {key})]
    else now == was
  }

  /** What the engine loop can be asked to do. */
  datatype Event =
    | LocalChange(key: Path, stat: Stat)
    | Rescanned(scan: seq<FileInfo>)
    | Completed(c: Completion)
    | TombstoneVerdict(t: FileInfo)
    | Reseed(device: DeviceID)
    | ReconcileEnd
    | CounterDrop(id: ShortID)
    | PeerChange(peers: Peers)

  const INTERNAL: Bytes := [0x2E, 0x6D, 0x73, 0x79, 0x6E, 0x63, 0x2D] // .msync-

  predicate InternalFile(key: Path)
  {
    INTERNAL <= Split(key)[|Split(key)| - 1]
  }

  lemma {:induction false} LastComponent(dir: Path, base: Name)
    requires SLASH !in base
    ensures var cs := Split(dir + [SLASH] + base); |cs| >= 2 && cs[|cs| - 1] == base
  {
    var p := dir + [SLASH] + base;
    if dir == [] {
      SplitOfName(base);
      assert p[1..] == base;
    } else {
      LastComponent(dir[1..], base);
      assert p[1..] == dir[1..] + [SLASH] + base;
    }
  }

  /** Our own files are told by their name alone, in any directory. */
  lemma {:induction false} InternalByName(dir: Path, base: Name)
    requires SLASH !in base
    ensures InternalFile(dir + [SLASH] + base) <==> INTERNAL <= base
    ensures InternalFile(base) <==> INTERNAL <= base
  {
    LastComponent(dir, base);
    SplitOfName(base);
  }

  ghost predicate GoodScan(scan: seq<FileInfo>)
  {
    && (forall i | 0 <= i < |scan| :: Scanned(scan[i]))
    && (forall i, j | 0 <= i < j < |scan| :: scan[i].path != scan[j].path)
  }

  ghost predicate GoodEvent(e: Event)
  {
    match e
    case LocalChange(key, Present(fi)) => Scanned(fi) && fi.path == key
    case Rescanned(scan) => GoodScan(scan)
    case _ => true
  }

  class Core {
    const H: Hasher
    const self: ShortID
    var files: Record
    var tree: Node
    var peers: Peers
    var sent: seq<seq<FileInfo>>   // the deltas broadcast so far

    ghost predicate Valid() reads this { Keyed(files) && CoherentWith(H, tree, files) }

    constructor (H: Hasher, self: ShortID)
      ensures Valid() && files == map[] && peers == map[] && this.H == H && this.self == self
    {
      this.H, this.self := H, self;
      files, peers, sent := map[], map[], [];
      tree := Dir(map[], H([NODE_PREFIX] + NodeEncoding([])));
      new;
      EmptyCoherent();
    }

    lemma {:induction false} EmptyCoherent()
      requires files == map[] && tree == Dir(map[], H([NODE_PREFIX] + NodeEncoding([])))
      ensures CoherentWith(H, tree, files)
    {
      forall t | TreeOf(H, t, files.Values) ensures t.hash == tree.hash {
        assert t.children == map[] by {
          if t.children != map[] { var cs := SomeLeaf(t); }
        }
        assert t.children.Keys == {};
        assert Entries(t.children) == [];
      }
    }

    // ---- small steps ----

    method RebuildLocked()
      requires Keyed(files)
      modifies this`tree
      ensures Valid()
    {
      var fis := Enumerate(files);
      var t := BuildTree(H, fis);
      if t.Some? { tree := t.value; }
      forall u | TreeOf(H, u, files.Values) ensures u.hash == tree.hash {
        TreeOfBuildable(H, u, files.Values);
        EnumerationBuildable(files, fis);
        TreeOfUnique(H, u, tree, files.Values);
      }
    }

    /** broadcastUpdate: only non-empty deltas count. */
    method BroadcastUpdate(changed: seq<FileInfo>)
      modifies this`sent
      ensures sent == old(sent) + if changed == [] then [] else [changed]
    {
      if changed != [] { sent := sent + [changed]; }
    }

    method GcTombstonesLocked() returns (changed: bool)
      modifies this`files
      ensures files == AfterGC(old(files), peers)
      ensures changed <==> files != old(files)
      ensures peers == map[] ==> files == old(files)
      ensures CanonicalRecord(old(files)) && Keyed(old(files)) ==>
                forall p | p in old(files) ::
                  p !in files <==>
                  && old(files)[p].deleted && peers != map[]
                  && forall d | d in peers :: ShowsDeletion(peers[d].index, p, old(files)[p].version)
    {
      if CanonicalRecord(files) && Keyed(files) { ForgottenOnlyOnEveryWord(files, peers); }
      if peers == map[] { return false; }
      changed := false;
      ghost var was := files;
      var todo := files.Keys;
      while todo != {}
        invariant Collecting(files, was, peers, todo) && (changed <==> files != was)
        decreases todo
      {
        var path :| path in todo;
        CollectingStep(files, was, peers, todo, path);
        var fi := files[path];
        todo := todo - {path};
        if !fi.deleted { continue; }
        var ackedByAll := AckedByAll(fi);
        if ackedByAll {
          files := files - {path};
          changed := true;
        }
      }
      CollectingEnds(files, was, peers);
    }

    method AckedByAll(fi: FileInfo) returns (acked: bool)
      ensures acked <==> forall d | d in peers :: CanGC(fi, peers[d].index)
    {
      var todo := peers.Keys;
      while todo != {}
        invariant todo <= peers.Keys && forall d | d in peers.Keys - todo :: CanGC(fi, peers[d].index)
        decreases todo
      {
        var d :| d in todo;
        if !CanGC(fi, peers[d].index) { return false; }
        todo := todo - {d};
      }
      return true;
    }

    method DropCounterLocked(id: ShortID) returns (changed: bool)
      requires Keyed(files)
      modifies this`files
      ensures files == AfterDrop(old(files), id) && (changed <==> files != old(files))
    {
      changed := false;
      var todo := files.Keys;
      ghost var was, want := files, AfterDrop(files, id);
      while todo != {}
        invariant Halfway(files, was, want, todo) && (changed <==> files != was)
        decreases todo
      {
        var path :| path in todo;
        var fi := files[path];
        var nv := DropFromVV(fi.version, id);
        var same := IsEqual(nv, fi.version);
        HalfwayStep(files, was, want, todo, path);
        if same {
          assert files[path := want[path]] == files;
        } else {
          files := files[path := fi.(version := nv)];
          changed := true;
        }
        todo := todo - {path};
      }
      assert files == want;
    }

    /** The distinct unpaired devices that occur anywhere on record. */
    method DeadCounters(paired: set<ShortID>) returns (dead: seq<ShortID>)
      ensures forall id | id in dead :: id !in paired
      ensures forall p, i | p in files && 0 <= i < |files[p].version| ::
                files[p].version[i].id in paired || files[p].version[i].id in dead
    {
      dead := [];
      var todo := files.Keys;
      while todo != {}
        invariant todo <= files.Keys && forall id | id in dead :: id !in paired
        invariant forall p, i | p in files.Keys - todo && 0 <= i < |files[p].version| ::
                    files[p].version[i].id in paired || files[p].version[i].id in dead
        decreases todo
      {
        var path :| path in todo;
        dead := DeadIn(files[path].version, paired, dead);
        todo := todo - {path};
      }
    }

    method DeadIn(v: VV, paired: set<ShortID>, seen: seq<ShortID>) returns (dead: seq<ShortID>)
      requires forall id | id in seen :: id !in paired
      ensures forall id | id in dead :: id !in paired
      ensures forall id | id in seen :: id in dead
      ensures forall i | 0 <= i < |v| :: v[i].id in paired || v[i].id in dead
    {
      dead := seen;
      for i := 0 to |v|
        invariant forall id | id in dead :: id !in paired
        invariant forall id | id in seen :: id in dead
        invariant forall k | 0 <= k < i :: v[k].id in paired || v[k].id in dead
      {
        if v[i].id !in paired && v[i].id !in dead { dead := dead + [v[i].id]; }
      }
    }

    /** The start-up sweep of de-paired devices; without a known paired set it keeps everything. */
    method SweepDepairedCountersLocked(paired: set<ShortID>, pairedKnown: bool) returns (changed: bool)
      requires Keyed(files)
      modifies this`files
      ensures Keyed(files) && (!changed ==> files == old(files))
      ensures files == if pairedKnown then AfterSweep(old(files), paired) else old(files)
    {
      changed := false;
      if !pairedKnown { return; }
      ghost var was := files;
      var dead := DeadCounters(paired);
      for i := 0 to |dead|
        invariant Keyed(files) && Dropped(files, was, dead[..i])
        invariant !changed ==> files == was
      {
        DropOneMore(files, was, dead[..i], dead[i]);
        assert dead[..i] + [dead[i]] == dead[..i + 1];
        var c := DropCounterLocked(dead[i]);
        if c { changed := true; }
      }
      assert dead[..|dead|] == dead;
      DropsArePruning(files, was, dead, paired);
    }

    /** Recovers the record from the snapshot and a scan, sweeps de-paired devices and builds the tree. */
    method StartupReconcile(prev: seq<FileInfo>, cur: seq<FileInfo>, paired: Option<set<ShortID>>)
      modifies this`files, this`tree
      ensures Valid()
      ensures forall p :: Find(files, p) == StartAt(self, Find(MapOf(prev), p), Find(MapOf(cur), p), paired)
    {
      files := Recover(prev, cur, self);
      ghost var was := files;
      var _ := SweepDepairedCountersLocked(if paired.Some? then paired.value else {}, paired.Some?);
      RebuildLocked();
      forall p ensures Find(files, p) == StartAt(self, Find(MapOf(prev), p), Find(MapOf(cur), p), paired) {
        assert Find(was, p) == RestartAt(self, Find(MapOf(prev), p), Find(MapOf(cur), p));
      }
    }

    // ---- handlers ----

    method DropCounter(id: ShortID)
      requires Valid()
      modifies this`files, this`tree
      ensures Valid() && files == AfterDrop(old(files), id)
    {
      var changed := DropCounterLocked(id);
      if changed { RebuildLocked(); }
    }

    /** The tombstone step at the end of every reconcile. */
    method CollectTombstones()
      requires Valid()
      modifies this`files, this`tree
      ensures Valid() && files == AfterGC(old(files), peers)
    {
      var changed := GcTombstonesLocked();
      if changed { RebuildLocked(); }
    }

    /** Records a tombstone; re-advertised unless it is the one already recorded. */
    method ApplyTombstone(t: FileInfo)
      requires Valid()
      modifies this`files, this`tree, this`sent
      ensures Valid() && files == old(files)[t.path := t]
      ensures sent == old(sent) +
                      if t.path in old(files) && old(files)[t.path].deleted && old(files)[t.path].version == t.version
                      then [] else [[t]]
    {
      var redundant := t.path in files && files[t.path].deleted && files[t.path].version == t.version;
      files := files[t.path := t];
      RebuildLocked();
      if !redundant { BroadcastUpdate([t]); }
    }

    /** Unmarks the path at one connected peer of that short ID, if there is one. */
    method ClearInflight(short: ShortID, key: Path)
      modifies this`peers
      ensures Unmarked(old(peers), peers, short, key)
    {
      if exists d | d in peers :: peers[d].short == short {
        var d :| d in peers && peers[d].short == short;
        peers := peers[d := peers[d].(inflight := peers[d].inflight - {key})];
      }
    }

    /** Records what the puller landed. A plain apply is never broadcast. */
    method HandleCompletion(c: Completion)
      requires Valid()
      modifies this`files, this`tree, this`sent, this`peers
      ensures Valid() && Unmarked(old(peers), peers, c.peer, c.leaf.path)
      ensures files == if c.applyTomb || (!c.conflictAbort && c.ok) then old(files)[c.leaf.path := c.leaf] else old(files)
      ensures sent == old(sent) + if (if c.applyTomb then !AlreadyBuried(old(files), c.leaf)
                                      else !c.conflictAbort && c.ok && c.advertise) then [[c.leaf]] else []
    {
      if c.applyTomb {
        ApplyTombstone(c.leaf);
        ClearInflight(c.peer, c.leaf.path);
        return;
      }
      if c.conflictAbort {
        ClearInflight(c.peer, c.leaf.path);
        return;
      }
      if c.ok {
        files := files[c.leaf.path := c.leaf];
        RebuildLocked();
        if c.advertise { BroadcastUpdate([c.leaf]); }
      }
      ClearInflight(c.peer, c.leaf.path);
    }

    /** A settled watcher hint: the rescan rule for one path, but muted entirely while it is in flight. */
    method OnLocalChange(key: Path, stat: Stat)
      requires Valid() && (stat.Present? ==> Scanned(stat.fi) && stat.fi.path == key)
      modifies this`files, this`tree, this`sent
      ensures Valid()
      ensures var ignored := InternalFile(key) || InFlight(peers, key) || stat.Directory? || stat.ScanFailed?;
              var s := if stat.Present? then Some(stat.fi) else None;
              && (forall p | p != key :: Find(files, p) == Find(old(files), p))
              && Find(files, key) == (if ignored then Find(old(files), key)
                                      else RescanAt(self, Find(old(files), key), s, false))
              && sent == old(sent) +
                         if !ignored && InDelta(Find(old(files), key), s, false) then [[Find(files, key).value]] else []
    {
      if InternalFile(key) { return; }
      var prev := Find(files, key);
      if InFlight(peers, key) { return; }
      match stat {
        case Gone =>
          if prev.Some? && !prev.value.deleted {
            var tomb := SetDeleted(prev.value, self);
            files := files[key := tomb];
            RebuildLocked();
            BroadcastUpdate([tomb]);
          }
        case Directory =>
        case ScanFailed =>
        case Present(nfi) =>
          if prev.Some? && Unchanged(prev.value, nfi) {
            if prev.value.mtime != nfi.mtime {
              var touched := prev.value.(mtime := nfi.mtime);
              UnhashedKeepsCoherence(H, tree, files, files[key := touched]);
              files := files[key := touched];
            }
            return;
          }
          var authored := Authored(self, prev, nfi);
          files := files[key := authored];
          RebuildLocked();
          BroadcastUpdate([authored]);
      }
    }

    // ---- rescan ----

    /** The record after the first loop has handled the scanned paths in done. */
    ghost predicate ScanLoop(was: Record, disk: Record, done: Record)
      reads this
    {
      && Keyed(files)
      && forall p :: Find(files, p) ==
                     if p in done then RescanAt(self, Find(was, p), Find(disk, p), InFlight(peers, p)) else Find(was, p)
    }

    method RescanPresent(scan: seq<FileInfo>) returns (delta: seq<FileInfo>)
      requires Valid() && GoodScan(scan)
      modifies this`files
      ensures ScanLoop(old(files), MapOf(scan), MapOf(scan))
      ensures forall f :: f in delta <==> f.path in MapOf(scan) && Find(files, f.path) == Some(f)
                                          && InDelta(Find(old(files), f.path), Find(MapOf(scan), f.path), InFlight(peers, f.path))
      ensures delta == [] ==> SameHashed(old(files), files)
    {
      delta := [];
      ghost var was, disk := files, MapOf(scan);
      assert scan[..0] == [];
      for i := 0 to |scan|
        invariant ScanLoop(was, disk, MapOf(scan[..i]))
        invariant forall f :: f in delta <==> f.path in MapOf(scan[..i]) && Find(files, f.path) == Some(f)
                                              && InDelta(Find(was, f.path), Find(disk, f.path), InFlight(peers, f.path))
        invariant delta == [] ==> SameHashed(was, files)
      {
        MapOfSnoc(scan, i);
        ScanDistinct(scan, i);
        var authored := RescanOne(scan[i]);
        if authored.Some? { delta := delta + [authored.value]; }
      }
      assert scan[..|scan|] == scan;
    }

    /** One turn of the first loop: quiet mtime update, mute while in flight, or local authorship. */
    method RescanOne(s: FileInfo) returns (authored: Option<FileInfo>)
      requires Keyed(files)
      modifies this`files
      ensures Keyed(files)
      ensures Find(files, s.path) == RescanAt(self, Find(old(files), s.path), Some(s), InFlight(peers, s.path))
      ensures forall p | p != s.path :: Find(files, p) == Find(old(files), p)
      ensures authored == if InDelta(Find(old(files), s.path), Some(s), InFlight(peers, s.path))
                          then Find(files, s.path) else None
      ensures authored.None? ==> SameHashed(old(files), files)
    {
      var prev := Find(files, s.path);
      if prev.Some? && Unchanged(prev.value, s) {
        if prev.value.mtime != s.mtime { files := files[s.path := prev.value.(mtime := s.mtime)]; }
        return None;
      }
      if InFlight(peers, s.path) { return None; }
      authored := Some(Authored(self, prev, s));
      files := files[s.path := authored.value];
    }

    lemma {:induction false} ScanDistinct(scan: seq<FileInfo>, i: nat)
      requires GoodScan(scan) && i < |scan|
      ensures scan[i].path !in MapOf(scan[..i]) && Find(MapOf(scan), scan[i].path) == Some(scan[i])
    {
      ScanPrefix(scan, i);
      ScanSuffix(scan, i, |scan|);
      assert scan[..|scan|] == scan;
    }

    lemma {:induction false} ScanPrefix(scan: seq<FileInfo>, i: nat)
      requires i <= |scan|
      ensures forall p | p in MapOf(scan[..i]) :: exists k | 0 <= k < i :: scan[k].path == p
    {
      if i > 0 { MapOfSnoc(scan, i - 1); ScanPrefix(scan, i - 1); }
    }

    lemma {:induction false} ScanSuffix(scan: seq<FileInfo>, i: nat, n: nat)
      requires GoodScan(scan) && i < n <= |scan|
      ensures Find(MapOf(scan[..n]), scan[i].path) == Some(scan[i])
      decreases n
    {
      MapOfSnoc(scan, n - 1);
      if i < n - 1 { ScanSuffix(scan, i, n - 1); }
    }

    /** One turn of the second loop; it does not ask whether the path is in flight. */
    method VanishOne(path: Path, present: Record) returns (tomb: Option<FileInfo>)
      requires path in files
      modifies this`files
      ensures files == old(files)[path := if path in present || old(files)[path].deleted then old(files)[path]
                                          else SetDeleted(old(files)[path], self)]
      ensures tomb == if path in present || old(files)[path].deleted then None else Some(files[path])
    {
      var fi := files[path];
      assert files[path := fi] == files;
      if fi.deleted { return None; }
      if path in present { return None; }
      files := files[path := SetDeleted(fi, self)];
      return Some(files[path]);
    }

    method RescanVanished(present: Record) returns (delta: seq<FileInfo>)
      requires Keyed(files)
      modifies this`files
      ensures files == Vanished(self, old(files), present) && Keyed(files)
      ensures forall f :: f in delta <==> f.path in old(files) && f.path !in present && !old(files)[f.path].deleted
                                          && f == SetDeleted(old(files)[f.path], self)
      ensures delta == [] ==> files == old(files)
    {
      delta := [];
      ghost var mid, want := files, Vanished(self, files, present);
      var todo := files.Keys;
      while todo != {}
        invariant Halfway(files, mid, want, todo) && TombsOf(delta, self, mid, present, todo)
        invariant delta == [] ==> files == mid
        decreases todo
      {
        var path :| path in todo;
        HalfwayStep(files, mid, want, todo, path);
        TombsStep(delta, self, mid, present, todo, path);
        var tomb := VanishOne(path, present);
        if tomb.Some? { delta := delta + [tomb.value]; }
        todo := todo - {path};
      }
      assert files == want;
    }

    lemma {:induction false} VanishedIsDetected(was: Record, disk: Record, mid: Record)
      requires Keyed(was) && Keyed(mid)
      requires forall p :: Find(mid, p) ==
                           if p in disk then RescanAt(self, Find(was, p), Find(disk, p), InFlight(peers, p)) else Find(was, p)
      ensures Vanished(self, mid, disk) == Detected(self, was, disk, peers)
    {
      var v, d := Vanished(self, mid, disk), Detected(self, was, disk, peers);
      forall p ensures Find(v, p) == Find(d, p) {
        assert Find(mid, p) ==
               if p in disk then RescanAt(self, Find(was, p), Find(disk, p), InFlight(peers, p)) else Find(was, p);
      }
      SameFinds(v, d);
    }

    lemma {:induction false} DeltaMeaning(was: Record, disk: Record, mid: Record, changes: seq<FileInfo>, tombs: seq<FileInfo>)
      requires Keyed(was) && Keyed(mid)
      requires forall p :: Find(mid, p) ==
                           if p in disk then RescanAt(self, Find(was, p), Find(disk, p), InFlight(peers, p)) else Find(was, p)
      requires forall f :: f in changes <==> f.path in disk && Find(mid, f.path) == Some(f)
                                             && InDelta(Find(was, f.path), Find(disk, f.path), InFlight(peers, f.path))
      requires forall f :: f in tombs <==> f.path in mid && f.path !in disk && !mid[f.path].deleted
                                           && f == SetDeleted(mid[f.path], self)
      ensures IsDelta(changes + tombs, self, was, disk, peers)
    {
      forall f ensures f in changes + tombs <==>
                       && Find(Detected(self, was, disk, peers), f.path) == Some(f)
                       && InDelta(Find(was, f.path), Find(disk, f.path), InFlight(peers, f.path))
      {
        assert f in changes + tombs <==> f in changes || f in tombs;
        assert Find(mid, f.path) ==
               if f.path in disk then RescanAt(self, Find(was, f.path), Find(disk, f.path), InFlight(peers, f.path))
               else Find(was, f.path);
      }
    }

    /** Both detection loops. */
    method Detect(scan: seq<FileInfo>) returns (delta: seq<FileInfo>)
      requires Valid() && GoodScan(scan)
      modifies this`files
      ensures Keyed(files) && files == Detected(self, old(files), MapOf(scan), peers)
      ensures IsDelta(delta, self, old(files), MapOf(scan), peers)
      ensures delta == [] ==> SameHashed(old(files), files)
    {
      ghost var was := files;
      var changes := RescanPresent(scan);
      ghost var mid := files;
      var present := BuildMap(scan);
      VanishedIsDetected(was, present, mid);
      var tombs := RescanVanished(present);
      delta := changes + tombs;
      DeltaMeaning(was, present, mid, changes, tombs);
    }

    /** Tombstone GC after detection, with one rebuild when the record changed in a hashed field. */
    method Settle(authored: bool)
      requires Keyed(files) && (!authored ==> CoherentWith(H, tree, files))
      modifies this`files, this`tree
      ensures Valid() && files == AfterGC(old(files), peers)
    {
      var changed := authored;
      var gced := GcTombstonesLocked();
      if gced { changed := true; }
      if changed { RebuildLocked(); }
    }

    method DetectAndRebuild(scan: seq<FileInfo>) returns (delta: seq<FileInfo>)
      requires Valid() && GoodScan(scan)
      modifies this`files, this`tree
      ensures Valid()
      ensures files == AfterRescan(self, old(files), MapOf(scan), peers)
      ensures IsDelta(delta, self, old(files), MapOf(scan), peers)
    {
      ghost var was := files;
      delta := Detect(scan);
      if delta == [] { UnhashedKeepsCoherence(H, tree, was, files); }
      Settle(delta != []);
    }

    /** The source of truth: detection at every path, then tombstone GC, and one rebuild if anything hashed changed. */
    method Rescan(scan: seq<FileInfo>) returns (delta: seq<FileInfo>)
      requires Valid() && GoodScan(scan)
      modifies this`files, this`tree, this`sent
      ensures Valid()
      ensures files == AfterRescan(self, old(files), MapOf(scan), peers)
      ensures IsDelta(delta, self, old(files), MapOf(scan), peers)
      ensures sent == old(sent) + if delta == [] then [] else [delta]
    {
      delta := DetectAndRebuild(scan);
      BroadcastUpdate(delta);
    }

    /** Two rescans that find the same files, with nothing in between: the second changes nothing and is silent. */
    method RescanTwice(scan: seq<FileInfo>) returns (delta: seq<FileInfo>)
      requires Valid() && GoodScan(scan)
      modifies this`files, this`tree, this`sent
      ensures Valid() && files == AfterRescan(self, old(files), MapOf(scan), peers)
      ensures IsDelta(delta, self, old(files), MapOf(scan), peers)
      ensures sent == old(sent) + if delta == [] then [] else [delta]
    {
      ghost var was := files;
      delta := Rescan(scan);
      var again := Rescan(scan);
      ScanIsGoodDisk(scan);
      RescanSettles(self, was, MapOf(scan), peers, again);
    }

    // ---- cold-start reseed ----

    /** One turn of the loop: live content without history takes the peer's live history, bumped if it differs. */
    method ReseedOne(path: Path, index: Record) returns (bumped: Option<FileInfo>)
      requires path in files
      modifies this`files
      ensures files == old(files)[path := Reseeded(self, old(files)[path], Find(index, path))]
      ensures bumped == if Reseedable(old(files)[path], Find(index, path)) then Some(files[path]) else None
    {
      var lf := files[path];
      assert files[path := lf] == files;
      if lf.deleted || |lf.version| != 0 { return None; }
      if path !in index || index[path].deleted { return None; }
      var merged := index[path].version;
      if lf.contentHash != index[path].contentHash { merged := Bumped(merged, self); }
      lf := lf.(version := merged);
      files := files[path := lf];
      return Some(lf);
    }

    method ReseedAll(index: Record) returns (bumped: seq<FileInfo>)
      requires Keyed(files)
      modifies this`files
      ensures files == AfterReseed(self, old(files), index)
      ensures LeavesAt(bumped, files, ReseedPaths(old(files), index))
      ensures bumped == [] <==> ReseedPaths(old(files), index) == {}
    {
      bumped := [];
      var todo := files.Keys;
      ghost var was, want, hits := files, AfterReseed(self, files, index), ReseedPaths(files, index);
      ReseedEnds(was, index);
      while todo != {}
        invariant Halfway(files, was, want, todo) && (bumped == [] <==> hits <= todo)
        invariant LeavesAt(bumped, want, hits - todo)
        decreases todo
      {
        var path :| path in todo;
        HalfwayStep(files, was, want, todo, path);
        var one := ReseedOne(path, index);
        LeavesAtStep(bumped, want, hits, todo, path);
        if one.Some? { bumped := bumped + [one.value]; }
        todo := todo - {path};
      }
      assert files == want;
    }

    /** One delta with exactly the reseeded leaves is broadcast, if there is any. */
    method DoReseed(index: Record)
      requires Valid()
      modifies this`files, this`tree, this`sent
      ensures Valid() && files == AfterReseed(self, old(files), index)
      ensures var paths := ReseedPaths(old(files), index);
              if paths == {} then sent == old(sent)
              else |sent| == |old(sent)| + 1 && sent[..|old(sent)|] == old(sent) && LeavesAt(sent[|old(sent)|], files, paths)
    {
      var bumped := ReseedAll(index);
      ReseedEnds(old(files), index);
      if |bumped| > 0 { RebuildLocked(); }
      BroadcastUpdate(bumped);
    }

    lemma {:induction false} ReseedEnds(was: Record, index: Record)
      requires Keyed(was)
      ensures Keyed(AfterReseed(self, was, index))
      ensures ReseedPaths(was, index) == {} ==> AfterReseed(self, was, index) == was
    {
      var want := AfterReseed(self, was, index);
      if ReseedPaths(was, index) == {} {
        forall p | p in was ensures want[p] == was[p] { assert p !in ReseedPaths(was, index); }
      }
    }

    // ---- the loop ----

    /** Every handler, in any order and any number: the cached root stays the record's root. */
    method Run(events: seq<Event>)
      requires Valid() && forall i | 0 <= i < |events| :: GoodEvent(events[i])
      modifies this
      ensures Valid()
    {
      for i := 0 to |events|
        invariant Valid()
      {
        match events[i] {
          case LocalChange(key, stat) => assert GoodEvent(events[i]); OnLocalChange(key, stat);
          case Rescanned(scan) => assert GoodEvent(events[i]); var _ := Rescan(scan);
          case Completed(c) => HandleCompletion(c);
          case TombstoneVerdict(t) => ApplyTombstone(t);
          case Reseed(d) => if d in peers { DoReseed(peers[d].index); }
          case ReconcileEnd => CollectTombstones();
          case CounterDrop(id) => DropCounter(id);
          case PeerChange(ps) => peers := ps;
        }
      }
    }
  }
}
