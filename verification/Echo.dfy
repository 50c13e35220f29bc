/** An apply is never mistaken for a local edit (the echo guard of internal/reconcile/engine.go): a puller task is run,
the loop records what it reports, and the next rescan of the disk looks at the paths it touched. */
module Echo {
  import opened Basics
  import opened Paths
  import opened VersionVectors
  import opened FileInfos
  import opened Trees
  import opened Conflict
  import opened Resolve
  import opened Detection
  import opened Tombstones
  import opened Engine
  import opened Apply

  // ---- what a scan finds ----

  datatype Meta = Meta(mode: U32, mtime: I64)

  function SizeOf(b: Bytes): (n: U64) { |b| % TWO64 }

  function ScannedFile(H: Hasher, p: Path, b: Bytes, m: Meta): (f: FileInfo)
  {
    FileInfo(p, H(b), SizeOf(b), m.mode, m.mtime, [], false, TypeFile)
  }

  /** scan lists the files of the disk outside todo, each once. */
  ghost predicate Lists(H: Hasher, scan: seq<FileInfo>, disk: DiskMap, meta: Path -> Meta, todo: set<Path>)
  {
    && GoodScan(scan)
    && forall p :: Find(MapOf(scan), p) ==
                   if p in disk && p !in todo then Some(ScannedFile(H, p, disk[p], meta(p))) else None
  }

  lemma {:induction false} ListedIsMapped(scan: seq<FileInfo>, i: nat)
    requires i < |scan|
    ensures scan[i].path in MapOf(scan)
  {
    if i < |scan| - 1 { ListedIsMapped(scan[..|scan| - 1], i); }
  }

  lemma {:induction false} GoodScanGrows(scan: seq<FileInfo>, f: FileInfo)
    requires GoodScan(scan) && Scanned(f) && f.path !in MapOf(scan)
    ensures GoodScan(scan + [f])
  {
    forall i | 0 <= i < |scan| ensures scan[i].path != f.path { ListedIsMapped(scan, i); }
  }

  lemma {:induction false} ListsStep(H: Hasher, scan: seq<FileInfo>, disk: DiskMap, meta: Path -> Meta, todo: set<Path>, p: Path)
    requires Lists(H, scan, disk, meta, todo) && p in todo && p in disk
    ensures Lists(H, scan + [ScannedFile(H, p, disk[p], meta(p))], disk, meta, todo - {p})
  {
    var f := ScannedFile(H, p, disk[p], meta(p));
    assert Find(MapOf(scan), p) == None;
    GoodScanGrows(scan, f);
    MapOfAppend(scan, f);
  }

  method ScanDisk(H: Hasher, disk: DiskMap, meta: Path -> Meta) returns (scan: seq<FileInfo>)
    ensures Lists(H, scan, disk, meta, {})
  {
    scan := [];
    var todo := disk.Keys;
    while todo != {}
      invariant todo <= disk.Keys && Lists(H, scan, disk, meta, todo)
      decreases todo
    {
      var p :| p in todo;
      ListsStep(H, scan, disk, meta, todo, p);
      scan := scan + [ScannedFile(H, p, disk[p], meta(p))];
      todo := todo - {p};
    }
  }

  // ---- what a task leaves behind ----

  /** A report of a landed file is true of the disk; only deletions are handed to the loop. */
  predicate TrueReport(H: Hasher, disk: DiskMap, c: Completion)
  {
    && (c.applyTomb ==> c.ok && c.leaf.deleted)
    && (c.conflictAbort ==> !c.ok)
    && (c.ok && !c.applyTomb ==>
          !c.leaf.deleted && c.leaf.ftype == TypeFile && HoldsContent(H, disk, c.leaf.path, c.leaf.contentHash))
  }

  predicate DistinctReports(reports: seq<Completion>)
  {
    forall i, j | 0 <= i < j < |reports| :: reports[i].leaf.path != reports[j].leaf.path
  }

  /** What execute enqueues: only a coupled task may carry a deletion, and the preserved leaf is another path's. */
  predicate GoodTask(task: FetchTask)
  {
    match task.preserve
    case None => !task.leaf.deleted
    case Some(keep) => !keep.deleted && keep.path != task.leaf.path
  }

  lemma {:induction false} PlainReportsTruly(H: Hasher, peer: ShortID, was: DiskMap, now: DiskMap, task: FetchTask, io: LeafIO,
                                             reports: seq<Completion>)
    requires GoodTask(task) && task.preserve.None? && PlainOutcome(H, peer, was, now, task, io, reports)
    ensures DistinctReports(reports) && forall c | c in reports :: TrueReport(H, now, c)
  {
  }

  lemma {:induction false} CoupleReportsTruly(H: Hasher, peer: ShortID, was: DiskMap, now: DiskMap, task: FetchTask,
                                              first: LeafIO, second: LeafIO, reports: seq<Completion>)
    requires GoodTask(task) && task.preserve.Some? && CoupledOutcome(H, peer, was, now, task, first, second, reports)
    ensures DistinctReports(reports) && forall c | c in reports :: TrueReport(H, now, c)
  {
    assert reports == [reports[0], reports[1]];
  }

  /** The loop has dealt with c: it is on record, and its file is still there. */
  predicate Recorded(H: Hasher, files: Record, disk: DiskMap, c: Completion)
  {
    TrueReport(H, disk, c) && (c.ok ==> Find(files, c.leaf.path) == Some(c.leaf))
  }

  /** handleCompletion with the removal it does on disk, which may fail. */
  method HandleReport(core: Core, puller: Puller, c: Completion, removable: bool)
    requires core.Valid() && puller.Valid() && TrueReport(puller.H, puller.disk, c)
    modifies core`files, core`tree, core`sent, core`peers, puller`disk, puller`history
    ensures core.Valid() && puller.Valid() && Recorded(puller.H, core.files, puller.disk, c)
    ensures forall p | p != c.leaf.path :: Find(core.files, p) == Find(old(core.files), p)
    ensures forall p | p != c.leaf.path || !c.applyTomb :: BytesAt(puller.disk, p) == BytesAt(old(puller.disk), p)
    ensures c.applyTomb ==> BytesAt(puller.disk, c.leaf.path) == if removable then None else BytesAt(old(puller.disk), c.leaf.path)
  {
    if c.applyTomb { puller.RemoveOriginal(c.leaf.path, removable); }
    core.HandleCompletion(c);
  }

  /** Whether the rescan authors the path of a report that was ok. */
  ghost predicate Echoed(H: Hasher, disk: DiskMap, peers: Peers, c: Completion)
  {
    && !InFlight(peers, c.leaf.path)
    && (if c.applyTomb then c.leaf.path in disk else c.leaf.path in disk && SizeOf(disk[c.leaf.path]) != c.leaf.size)
  }

  lemma {:induction false} EchoAt(H: Hasher, self: ShortID, files: Record, disk: DiskMap, peers: Peers, meta: Path -> Meta,
                                  scan: seq<FileInfo>, delta: seq<FileInfo>, c: Completion)
    requires Keyed(files) && Lists(H, scan, disk, meta, {}) && IsDelta(delta, self, files, MapOf(scan), peers)
    requires Recorded(H, files, disk, c) && c.ok
    ensures Authors(delta, c.leaf.path) <==> Echoed(H, disk, peers, c)
  {
    ScanIsGoodDisk(scan);
    DeltaAt(delta, self, files, MapOf(scan), peers, c.leaf.path);
  }

  lemma {:induction false} StillTrue(H: Hasher, disk: DiskMap, left: DiskMap, c: Completion)
    requires TrueReport(H, disk, c) && BytesAt(left, c.leaf.path) == BytesAt(disk, c.leaf.path)
    ensures TrueReport(H, left, c)
  {
  }

  /** Dealing with the k-th report leaves the other paths, and so the other reports, as they were. */
  lemma {:induction false} OthersStand(H: Hasher, files: Record, disk: DiskMap, now: Record, left: DiskMap,
                                       reports: seq<Completion>, k: nat)
    requires k < |reports| && DistinctReports(reports) && Recorded(H, now, left, reports[k])
    requires forall p | p != reports[k].leaf.path :: Find(now, p) == Find(files, p) && BytesAt(left, p) == BytesAt(disk, p)
    requires forall i | 0 <= i < k :: Recorded(H, files, disk, reports[i])
    requires forall i | k <= i < |reports| :: TrueReport(H, disk, reports[i])
    ensures forall i | 0 <= i <= k :: Recorded(H, now, left, reports[i])
    ensures forall i | k < i < |reports| :: TrueReport(H, left, reports[i])
  {
    forall i | 0 <= i < |reports| && i != k ensures TrueReport(H, disk, reports[i]) ==> TrueReport(H, left, reports[i]) {
      assert reports[i].leaf.path != reports[k].leaf.path;
      if TrueReport(H, disk, reports[i]) { StillTrue(H, disk, left, reports[i]); }
    }
  }

  /** The loop takes the puller's reports in order. */
  method HandleReports(core: Core, puller: Puller, reports: seq<Completion>, removable: bool)
    requires core.Valid() && puller.Valid() && DistinctReports(reports)
    requires forall i | 0 <= i < |reports| :: TrueReport(puller.H, puller.disk, reports[i])
    modifies core`files, core`tree, core`sent, core`peers, puller`disk, puller`history
    ensures core.Valid() && puller.Valid()
    ensures forall i | 0 <= i < |reports| :: Recorded(puller.H, core.files, puller.disk, reports[i])
  {
    for k := 0 to |reports|
      invariant core.Valid() && puller.Valid()
      invariant forall i | 0 <= i < k :: Recorded(puller.H, core.files, puller.disk, reports[i])
      invariant forall i | k <= i < |reports| :: TrueReport(puller.H, puller.disk, reports[i])
    {
      ghost var files, disk := core.files, puller.disk;
      HandleReport(core, puller, reports[k], removable);
      OthersStand(puller.H, files, disk, core.files, puller.disk, reports, k);
    }
  }

  /** A task, its completions, and the next rescan: a landed path is not authored unless the advertised size was
      wrong, and an applied deletion is not authored unless the removal failed. */
  method ApplyThenRescan(core: Core, puller: Puller, task: FetchTask, first: LeafIO, second: LeafIO, removable: bool,
                         meta: Path -> Meta)
    returns (delta: seq<FileInfo>)
    requires core.Valid() && puller.Valid() && GoodTask(task)
    requires task.preserve.Some? ==> GoodPick(core.files, task.preserve.value, first.pick)
    requires GoodPick(core.files, task.leaf, second.pick)
    modifies core`files, core`tree, core`sent, core`peers, puller`disk, puller`history, puller`reports
    ensures core.Valid() && puller.Valid() && old(puller.reports) <= puller.reports
    ensures |puller.reports| == |old(puller.reports)| + if task.preserve.Some? then 2 else 1
    ensures forall c | c in puller.reports[|old(puller.reports)|..] && c.ok ::
              Authors(delta, c.leaf.path) <==> Echoed(puller.H, puller.disk, core.peers, c)
  {
    ghost var was := puller.disk;
    var n := |puller.reports|;
    puller.RunFetch(core.files, task, first, second);
    var reports := puller.reports[n..];
    if task.preserve.Some? {
      CoupleReportsTruly(puller.H, puller.peer, was, puller.disk, task, first, second, reports);
    } else {
      PlainReportsTruly(puller.H, puller.peer, was, puller.disk, task, second, reports);
    }
    HandleReports(core, puller, reports, removable);
    var scan := ScanDisk(puller.H, puller.disk, meta);
    ghost var files := core.files;
    delta := core.Rescan(scan);
    forall c | c in reports && c.ok
      ensures Authors(delta, c.leaf.path) <==> Echoed(puller.H, puller.disk, core.peers, c)
    {
      EchoAt(puller.H, core.self, files, puller.disk, core.peers, meta, scan, delta, c);
    }
  }
}
