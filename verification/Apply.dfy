/** Applying verdicts to the disk (internal/reconcile/engine.go execute, runFetch, handleCompletion;
internal/reconcile/transfer.go atomicWriteVerify, materialise).

Every I/O step may fail: its outcome is a parameter, and results hold for all of them. history records every state
the disk goes through, so that order of effects can be stated. */
module Apply {
  import opened Basics
  import opened Paths
  import opened FileInfos
  import opened VersionVectors
  import opened Trees
  import opened Conflict
  import opened Resolve
  import opened Tombstones
  import opened Engine

  type DiskMap = map<Path, Bytes>

  predicate HoldsContent(H: Hasher, disk: DiskMap, p: Path, h: Digest) { p in disk && H(disk[p]) == h }

  function BytesAt(disk: DiskMap, p: Path): (b: Option<Bytes>) { if p in disk then Some(disk[p]) else None }

  /** A puller task: preserve, when present, must be on disk before leaf's destructive step. */
  datatype FetchTask = FetchTask(leaf: FileInfo, advertise: bool, preserve: Option<FileInfo>, preserveAdvertise: bool)

  // ---- execute: who carries out a conflict, and how ----

  predicate HasLocalContent(files: Record, h: Digest)
  {
    exists p | p in files :: !files[p].deleted && files[p].ftype == TypeFile && files[p].contentHash == h
  }

  method ComputeHasLocalContent(files: Record, h: Digest) returns (has: bool)
    ensures has <==> HasLocalContent(files, h)
    ensures has <==> exists p | p in files :: !files[p].deleted && files[p].ftype == TypeFile && files[p].contentHash == h
  {
    var todo := files.Keys;
    while todo != {}
      invariant todo <= files.Keys
      invariant forall p | p in files.Keys - todo ::
                  !(!files[p].deleted && files[p].ftype == TypeFile && files[p].contentHash == h)
      decreases todo
    {
      var p :| p in todo;
      if !files[p].deleted && files[p].ftype == TypeFile && files[p].contentHash == h { return true; }
      todo := todo - {p};
    }
    return false;
  }

  datatype Action = Idle | Remove(tomb: FileInfo) | Enqueue(task: FetchTask)

  /** tooLong: the copy's path would exceed the Windows limit. */
  function ActionFor(files: Record, p: Plan, tooLong: bool): (a: Action)
  {
    match p
    case NoOp => Idle
    case Install(f) => if f.deleted then Remove(f) else Enqueue(FetchTask(f, false, None, false))
    case KeepBoth(w, l) =>
      if l.Some? && HasLocalContent(files, l.value.contentHash) then
        if tooLong then Idle else Enqueue(FetchTask(w, false, l, true))
      else if w.deleted then Remove(w)
      else Enqueue(FetchTask(w, false, None, false))
  }

  /** The side that holds the losing content couples its copy to the winner's step (or refuses), exactly when a
      live regular file of that content is on record. */
  lemma {:induction false} LoserIsCoupled(N: Naming, files: Record, local: FileInfo, remote: FileInfo, tooLong: bool)
    requires Sane(local) && Sane(remote) && local.path == remote.path && !local.deleted
    requires Find(files, local.path) == Some(local)
    requires InConflict(local, remote) && !NamingFails(N, local, remote) && Loser(local, remote) == local
    ensures var a := ActionFor(files, ResolvePair(N, local, remote), tooLong);
            && (HasLocalContent(files, local.contentHash) <==>
                  a == Idle || (a.Enqueue? && a.task.preserve.Some? && a.task.preserve.value.contentHash == local.contentHash))
            && (!HasLocalContent(files, local.contentHash) ==>
                  a == (if remote.deleted then Remove(remote) else Enqueue(FetchTask(remote, false, None, false))))
    ensures local.ftype == TypeFile ==> HasLocalContent(files, local.contentHash)
  {
    ConflictSymmetric(N, local, remote);
  }

  /** The side that holds the winner records it again or removes it again; a copy rides along exactly when a live
      loser's content is on record here too. */
  lemma {:induction false} WinnerStays(N: Naming, files: Record, local: FileInfo, remote: FileInfo, tooLong: bool)
    requires Sane(local) && Sane(remote) && local.path == remote.path
    requires InConflict(local, remote) && !NamingFails(N, local, remote) && Winner(local, remote) == local
    ensures var pair := ResolvePair(N, local, remote);
            ActionFor(files, pair, tooLong)
            == if !remote.deleted && HasLocalContent(files, remote.contentHash)
               then (if tooLong then Idle else Enqueue(FetchTask(local, false, CopyOf(pair), true)))
               else if local.deleted then Remove(local) else Enqueue(FetchTask(local, false, None, false))
    ensures remote.deleted <==> CopyOf(ResolvePair(N, local, remote)) == None
  {
    ConflictSymmetric(N, local, remote);
    ConflictRivals(local, remote);
  }

  /** What is enqueued then: the losing copy, coupled to the winner. */
  lemma {:induction false} LosersTask(N: Naming, files: Record, local: FileInfo, remote: FileInfo, tooLong: bool)
    requires Sane(local) && Sane(remote) && local.path == remote.path && !local.deleted
    requires Find(files, local.path) == Some(local) && local.ftype == TypeFile
    requires InConflict(local, remote) && !NamingFails(N, local, remote) && Loser(local, remote) == local
    ensures var pair := ResolvePair(N, local, remote);
            && CopyOf(pair).Some? && CopyOf(pair).value.contentHash == local.contentHash
            && Winner(local, remote) == remote
            && ActionFor(files, pair, tooLong) == if tooLong then Idle else Enqueue(FetchTask(remote, false, CopyOf(pair), true))
  {
    LoserIsCoupled(N, files, local, remote, tooLong);
    ConflictSymmetric(N, local, remote);
  }

  // ---- the outcomes of the I/O steps ----

  /** Creating the temp file, syncing it, and renaming it over the destination. */
  datatype WriteIO = WriteIO(created: bool, synced: bool, renamed: bool)

  /** How the I/O of one materialise goes: whether the leaf's own file can be read, whether another name on this
      file system would be clobbered, which recorded candidate is tried as a local source and whether it can be
      hashed and copied, what the wire yields (None: an error), and the two writes. */
  datatype LeafIO = LeafIO(
    canRead: bool, clash: bool, pick: Option<Path>, canHash: bool, canCopy: bool, copyIO: WriteIO,
    fetched: Option<Bytes>, fetchIO: WriteIO)

  /** A recorded live regular file of that content, other than the leaf itself. */
  predicate Candidate(files: Record, h: Digest, exclude: Path, p: Path)
  {
    p in files && p != exclude && !files[p].deleted && files[p].ftype == TypeFile && files[p].contentHash == h
  }

  /** The candidate tried is one of them, whenever there is any. */
  predicate GoodPick(files: Record, leaf: FileInfo, pick: Option<Path>)
  {
    match pick
    case None => forall p | p in files :: !Candidate(files, leaf.contentHash, leaf.path, p)
    case Some(p) => Candidate(files, leaf.contentHash, leaf.path, p)
  }

  /** Another name on this file system would be overwritten, and the content is not there already. */
  predicate WouldClobber(H: Hasher, disk: DiskMap, leaf: FileInfo, io: LeafIO)
  {
    io.clash && !(io.canRead && leaf.path in disk && H(disk[leaf.path]) == leaf.contentHash)
  }

  /** A recorded file still holds the wanted bytes and copying it succeeds: no network is needed. */
  predicate ReusesLocally(H: Hasher, disk: DiskMap, leaf: FileInfo, io: LeafIO)
  {
    && leaf.ftype == TypeFile && !io.clash && io.pick.Some? && io.canHash && io.canCopy
    && io.pick.value in disk && H(disk[io.pick.value]) == leaf.contentHash
    && io.copyIO.created && io.copyIO.synced && io.copyIO.renamed
  }

  predicate WriteLands(H: Hasher, h: Digest, filled: Option<Bytes>, io: WriteIO)
  {
    io.created && filled.Some? && H(filled.value) == h && io.synced && io.renamed
  }

  predicate CopyLands(H: Hasher, disk: DiskMap, leaf: FileInfo, io: LeafIO)
  {
    && io.pick.Some? && io.canHash && HoldsContent(H, disk, io.pick.value, leaf.contentHash)
    && WriteLands(H, leaf.contentHash, if io.canCopy then BytesAt(disk, io.pick.value) else None, io.copyIO)
  }

  /** Already there, or copied locally, or fetched; never over a clashing name, and never for a link. */
  predicate Lands(H: Hasher, disk: DiskMap, leaf: FileInfo, io: LeafIO)
  {
    && leaf.ftype == TypeFile
    && (|| (io.canRead && HoldsContent(H, disk, leaf.path, leaf.contentHash))
        || (!io.clash && (CopyLands(H, disk, leaf, io) || WriteLands(H, leaf.contentHash, io.fetched, io.fetchIO))))
  }

  /** The wire and the write behave: enough for any state of the disk. */
  predicate FetchLands(H: Hasher, leaf: FileInfo, io: LeafIO)
  {
    leaf.ftype == TypeFile && !io.clash && WriteLands(H, leaf.contentHash, io.fetched, io.fetchIO)
  }

  // ---- what a task achieves ----

  /** Exactly the leaf's own path may have changed, and only to the leaf's content; the report says which. */
  predicate LeafOutcome(H: Hasher, was: DiskMap, now: DiskMap, leaf: FileInfo, ok: bool)
  {
    if ok then HoldsContent(H, now, leaf.path, leaf.contentHash) else BytesAt(now, leaf.path) == BytesAt(was, leaf.path)
  }

  /** One leaf materialised, or nothing changed. */
  ghost predicate Materialised(H: Hasher, was: DiskMap, now: DiskMap, leaf: FileInfo, ok: bool)
  {
    && (if ok then HoldsContent(H, now, leaf.path, leaf.contentHash) else now == was)
    && forall p | p != leaf.path :: BytesAt(now, p) == BytesAt(was, p)
  }

  ghost predicate PlainOutcome(H: Hasher, peer: ShortID, was: DiskMap, now: DiskMap, task: FetchTask, io: LeafIO,
                               reports: seq<Completion>)
  {
    && reports == [Completion(task.leaf, Lands(H, was, task.leaf, io), task.advertise, false, false, peer)]
    && LeafOutcome(H, was, now, task.leaf, Lands(H, was, task.leaf, io))
    && forall p | p != task.leaf.path :: BytesAt(now, p) == BytesAt(was, p)
  }

  /** The copy is reported first. If it did not land, the leaf is aborted and nothing changed; if it did, it stands,
      and the leaf's deletion is handed to the loop or the leaf is placed. */
  ghost predicate CoupledOutcome(H: Hasher, peer: ShortID, was: DiskMap, now: DiskMap, task: FetchTask,
                                 first: LeafIO, second: LeafIO, reports: seq<Completion>)
    requires task.preserve.Some?
  {
    var keep, leaf := task.preserve.value, task.leaf;
    var landed := Lands(H, was, keep, first);
    && |reports| == 2
    && reports[0] == Completion(keep, landed, task.preserveAdvertise, false, false, peer)
    && (landed ==> HoldsContent(H, now, keep.path, keep.contentHash))
    && (var last := reports[1];
        if !landed then last == Completion(leaf, false, false, false, true, peer) && now == was
        else if leaf.deleted then
          last == Completion(leaf, true, false, true, false, peer) && BytesAt(now, leaf.path) == BytesAt(was, leaf.path)
        else
          && last == Completion(leaf, last.ok, task.advertise, false, false, peer)
          && LeafOutcome(H, was, now, leaf, last.ok) && (FetchLands(H, leaf, second) ==> last.ok)
          && (last.ok ==> leaf.ftype == TypeFile))
    && forall p | p != leaf.path && p != keep.path :: BytesAt(now, p) == BytesAt(was, p)
  }

  /** What the second half reports and does once the copy is safe. */
  ghost predicate LeafStep(H: Hasher, peer: ShortID, mid: DiskMap, now: DiskMap, task: FetchTask, second: LeafIO, last: Completion)
  {
    var leaf := task.leaf;
    if leaf.deleted then last == Completion(leaf, true, false, true, false, peer) && now == mid
    else
      && last == Completion(leaf, last.ok, task.advertise, false, false, peer)
      && Materialised(H, mid, now, leaf, last.ok) && (FetchLands(H, leaf, second) ==> last.ok)
      && (last.ok ==> leaf.ftype == TypeFile)
  }

  /** The two halves of a coupled task, one after the other. */
  lemma {:induction false} HalvesMakeACouple(H: Hasher, peer: ShortID, was: DiskMap, mid: DiskMap, now: DiskMap,
                                             task: FetchTask, first: LeafIO, second: LeafIO, last: Completion)
    requires task.preserve.Some? && task.preserve.value.path != task.leaf.path
    requires Lands(H, was, task.preserve.value, first) && Materialised(H, was, mid, task.preserve.value, true)
    requires LeafStep(H, peer, mid, now, task, second, last)
    ensures CoupledOutcome(H, peer, was, now, task, first, second,
                           [Completion(task.preserve.value, true, task.preserveAdvertise, false, false, peer), last])
  {
    var keep := task.preserve.value.path;
    assert BytesAt(now, keep) == BytesAt(mid, keep);
    assert BytesAt(mid, task.leaf.path) == BytesAt(was, task.leaf.path);
  }

  lemma {:induction false} AbortedCouple(H: Hasher, peer: ShortID, was: DiskMap, task: FetchTask, first: LeafIO, second: LeafIO)
    requires task.preserve.Some? && !Lands(H, was, task.preserve.value, first)
    ensures CoupledOutcome(H, peer, was, was, task, first, second,
                           [Completion(task.preserve.value, false, task.preserveAdvertise, false, false, peer),
                            Completion(task.leaf, false, false, false, true, peer)])
  {
  }

  /** The preserved content is at its old path or at the copy's, and at the copy's if the copy could land. */
  predicate Survives(H: Hasher, was: DiskMap, left: DiskMap, task: FetchTask, first: LeafIO)
    requires task.preserve.Some?
  {
    var keep := task.preserve.value;
    && (HoldsContent(H, left, task.leaf.path, keep.contentHash) || HoldsContent(H, left, keep.path, keep.contentHash))
    && (Lands(H, was, keep, first) ==> HoldsContent(H, left, keep.path, keep.contentHash))
  }

  lemma {:induction false} CopyOrOriginal(H: Hasher, peer: ShortID, was: DiskMap, now: DiskMap, task: FetchTask,
                                          first: LeafIO, second: LeafIO, reports: seq<Completion>, left: DiskMap)
    requires task.preserve.Some? && task.preserve.value.path != task.leaf.path
    requires HoldsContent(H, was, task.leaf.path, task.preserve.value.contentHash)
    requires CoupledOutcome(H, peer, was, now, task, first, second, reports)
    requires left == now || (reports[1].applyTomb && left == now - {task.leaf.path})
    ensures Survives(H, was, left, task, first)
  {
  }

  /** The steps after the first n states change what is at p only when q already holds content h. */
  ghost predicate ChangedOnlyAfter(H: Hasher, history: seq<DiskMap>, n: nat, p: Path, q: Path, h: Digest)
  {
    forall i | n <= i + 1 && 0 <= i < |history| - 1 && BytesAt(history[i], p) != BytesAt(history[i + 1], p) ::
      HoldsContent(H, history[i], q, h)
  }

  /** Each half adds at most one state, and the first leaves p alone. */
  lemma {:induction false} HistoryOfACouple(H: Hasher, h0: seq<DiskMap>, h1: seq<DiskMap>, h2: seq<DiskMap>,
                                            p: Path, q: Path, h: Digest)
    requires h0 != [] && h1 != [] && (h1 == h0 || h1 == h0 + [h1[|h1| - 1]])
    requires h2 == h1 || (|h2| == |h1| + 1 && h1 <= h2 && HoldsContent(H, h1[|h1| - 1], q, h))
    requires BytesAt(h1[|h1| - 1], p) == BytesAt(h0[|h0| - 1], p)
    ensures ChangedOnlyAfter(H, h2, |h0|, p, q, h)
  {
  }

  lemma {:induction false} LastTwo(s: seq<Completion>, c: Completion, d: Completion)
    ensures (s + [c] + [d])[|s|..] == [c, d]
  {
  }

  // ---- the puller and the disk ----

  class Puller {
    const H: Hasher
    const peer: ShortID
    var disk: DiskMap
    var reports: seq<Completion>
    ghost var history: seq<DiskMap>

    ghost predicate Valid() reads this { history != [] && history[|history| - 1] == disk }

    constructor (H: Hasher, peer: ShortID, disk: DiskMap)
      ensures Valid() && this.disk == disk && reports == [] && history == [disk] && this.H == H && this.peer == peer
    {
      this.H, this.peer, this.disk, reports := H, peer, disk, [];
      history := [disk];
    }

    method Report(c: Completion)
      modifies this`reports
      ensures reports == old(reports) + [c]
    {
      reports := reports + [c];
    }

    /** Writes a temp file, verifies the hash of what was written, then renames it over dst. filled is None when
        the content could not be produced. On any failure dst and everything else stay as they were. */
    method AtomicWriteVerify(dst: Path, expected: Digest, filled: Option<Bytes>, io: WriteIO) returns (ok: bool)
      requires Valid()
      modifies this`disk, this`history
      ensures Valid() && (ok <==> WriteLands(H, expected, filled, io))
      ensures ok <==> io.created && filled.Some? && H(filled.value) == expected && io.synced && io.renamed
      ensures ok ==> disk == old(disk)[dst := filled.value] && history == old(history) + [disk]
      ensures !ok ==> disk == old(disk) && history == old(history)
    {
      if !io.created { return false; }
      if filled.None? { return false; }
      if H(filled.value) != expected { return false; }
      if !io.synced { return false; }
      if !io.renamed { return false; }
      disk := disk[dst := filled.value];
      history := history + [disk];
      return true;
    }

    /** The recorded candidate, offered only if its bytes on disk still have the wanted hash. */
    method LocalSource(files: Record, leaf: FileInfo, io: LeafIO) returns (src: Option<Path>)
      requires GoodPick(files, leaf, io.pick)
      ensures src.Some? <==> io.pick.Some? && io.canHash && HoldsContent(H, disk, io.pick.value, leaf.contentHash)
      ensures src.Some? ==> src == io.pick && HoldsContent(H, disk, src.value, leaf.contentHash) && src.value != leaf.path
    {
      if io.pick.None? { return None; }
      if !io.canHash || io.pick.value !in disk || H(disk[io.pick.value]) != leaf.contentHash { return None; }
      return io.pick;
    }

    /** Makes the leaf's content be at its path and reports: idempotence, no-clobber, local copy, then the wire. Where
        another name would be clobbered, and for a link, nothing is written and the report is a failure. */
    method Materialise(files: Record, leaf: FileInfo, advertise: bool, io: LeafIO) returns (ok: bool)
      requires Valid() && GoodPick(files, leaf, io.pick)
      modifies this`disk, this`history, this`reports
      ensures Valid() && (ok <==> Lands(H, old(disk), leaf, io)) && (FetchLands(H, leaf, io) ==> ok)
      ensures WouldClobber(H, old(disk), leaf, io) ==>
                !ok && disk == old(disk) && history == old(history)
      ensures leaf.ftype != TypeFile ==> !ok && disk == old(disk) && history == old(history)
      ensures leaf.ftype == TypeFile && io.canRead && HoldsContent(H, old(disk), leaf.path, leaf.contentHash) ==>
                ok && disk == old(disk) && history == old(history)
      ensures ReusesLocally(H, old(disk), leaf, io) ==> ok
      ensures Materialised(H, old(disk), disk, leaf, ok)
      ensures history == old(history) || (ok && history == old(history) + [disk])
      ensures reports == old(reports) + [Completion(leaf, ok, advertise, false, false, peer)]
    {
      ok := Place(files, leaf, io);
      Report(Completion(leaf, ok, advertise, false, false, peer));
    }

    method Place(files: Record, leaf: FileInfo, io: LeafIO) returns (ok: bool)
      requires Valid() && GoodPick(files, leaf, io.pick)
      modifies this`disk, this`history
      ensures Valid() && (ok <==> Lands(H, old(disk), leaf, io))
      ensures WouldClobber(H, old(disk), leaf, io) ==>
                !ok && disk == old(disk) && history == old(history)
      ensures leaf.ftype != TypeFile ==> !ok && disk == old(disk) && history == old(history)
      ensures leaf.ftype == TypeFile && io.canRead && HoldsContent(H, old(disk), leaf.path, leaf.contentHash) ==>
                ok && disk == old(disk) && history == old(history)
      ensures ReusesLocally(H, old(disk), leaf, io) ==> ok
      ensures Materialised(H, old(disk), disk, leaf, ok)
      ensures history == old(history) || (ok && history == old(history) + [disk])
    {
      if leaf.ftype != TypeFile { return false; }
      if io.canRead && leaf.path in disk && H(disk[leaf.path]) == leaf.contentHash { return true; }
      if io.clash { return false; }
      var src := LocalSource(files, leaf, io);
      if src.Some? {
        var copied := if io.canCopy && src.value in disk then Some(disk[src.value]) else None;
        ok := AtomicWriteVerify(leaf.path, leaf.contentHash, copied, io.copyIO);
        if ok { return true; }
      }
      ok := AtomicWriteVerify(leaf.path, leaf.contentHash, io.fetched, io.fetchIO);
    }

    /** Copy before destroy, for every outcome of every I/O step: the preserve half first; if it does not land the
        leaf is skipped; a deletion is left to the loop. What would clobber another name is not written, and a copy
        that would stops the whole task. */
    method RunFetch(files: Record, task: FetchTask, first: LeafIO, second: LeafIO)
      requires Valid() && (task.preserve.Some? ==> task.preserve.value.path != task.leaf.path)
      requires task.preserve.Some? ==> GoodPick(files, task.preserve.value, first.pick)
      requires GoodPick(files, task.leaf, second.pick)
      modifies this`disk, this`history, this`reports
      ensures Valid() && old(history) <= history && old(reports) <= reports
      ensures task.preserve.Some? ==>
                && ChangedOnlyAfter(H, history, |old(history)|, task.leaf.path, task.preserve.value.path, task.preserve.value.contentHash)
                && CoupledOutcome(H, peer, old(disk), disk, task, first, second, reports[|old(reports)|..])
      ensures task.preserve.None? ==> PlainOutcome(H, peer, old(disk), disk, task, second, reports[|old(reports)|..])
      ensures WouldClobber(H, old(disk), if task.preserve.Some? then task.preserve.value else task.leaf,
                           if task.preserve.Some? then first else second) ==>
                disk == old(disk) && history == old(history) && forall c | c in reports[|old(reports)|..] :: !c.ok
      ensures WouldClobber(H, old(disk), task.leaf, second) && !task.leaf.deleted ==>
                BytesAt(disk, task.leaf.path) == BytesAt(old(disk), task.leaf.path) && !reports[|reports| - 1].ok
    {
      if task.preserve.Some? {
        RunCoupled(files, task, first, second);
      } else {
        var _ := Materialise(files, task.leaf, task.advertise, second);
      }
    }

    method RunCoupled(files: Record, task: FetchTask, first: LeafIO, second: LeafIO)
      requires Valid() && task.preserve.Some? && task.preserve.value.path != task.leaf.path
      requires GoodPick(files, task.preserve.value, first.pick) && GoodPick(files, task.leaf, second.pick)
      modifies this`disk, this`history, this`reports
      ensures Valid() && old(history) <= history && old(reports) <= reports
      ensures ChangedOnlyAfter(H, history, |old(history)|, task.leaf.path, task.preserve.value.path, task.preserve.value.contentHash)
      ensures CoupledOutcome(H, peer, old(disk), disk, task, first, second, reports[|old(reports)|..])
      ensures WouldClobber(H, old(disk), task.preserve.value, first) ==>
                disk == old(disk) && history == old(history) && forall c | c in reports[|old(reports)|..] :: !c.ok
      ensures WouldClobber(H, old(disk), task.leaf, second) && !task.leaf.deleted ==>
                BytesAt(disk, task.leaf.path) == BytesAt(old(disk), task.leaf.path) && !reports[|reports| - 1].ok
    {
      ghost var was, reported, h0 := disk, reports, history;
      var copied := Materialise(files, task.preserve.value, task.preserveAdvertise, first);
      ghost var mid, h1 := disk, history;
      ghost var kept := Completion(task.preserve.value, copied, task.preserveAdvertise, false, false, peer);
      if !copied {
        Report(Completion(task.leaf, false, false, false, true, peer));
        AbortedCouple(H, peer, was, task, first, second);
        LastTwo(reported, kept, Completion(task.leaf, false, false, false, true, peer));
        HistoryOfACouple(H, h0, h1, h1, task.leaf.path, task.preserve.value.path, task.preserve.value.contentHash);
        return;
      }
      assert BytesAt(mid, task.leaf.path) == BytesAt(was, task.leaf.path);
      ghost var last := FinishCouple(files, task, second);
      HalvesMakeACouple(H, peer, was, mid, disk, task, first, second, last);
      LastTwo(reported, kept, last);
      HistoryOfACouple(H, h0, h1, history, task.leaf.path, task.preserve.value.path, task.preserve.value.contentHash);
    }

    /** The destructive half: a deletion is handed to the loop, a leaf is placed. */
    method FinishCouple(files: Record, task: FetchTask, second: LeafIO) returns (ghost last: Completion)
      requires Valid() && GoodPick(files, task.leaf, second.pick)
      modifies this`disk, this`history, this`reports
      ensures Valid() && (history == old(history) || history == old(history) + [disk])
      ensures reports == old(reports) + [last] && LeafStep(H, peer, old(disk), disk, task, second, last)
      ensures WouldClobber(H, old(disk), task.leaf, second) && !task.leaf.deleted ==> disk == old(disk) && !last.ok
    {
      if task.leaf.deleted {
        Report(Completion(task.leaf, true, false, true, false, peer));
        last := Completion(task.leaf, true, false, true, false, peer);
        return;
      }
      var ok := Materialise(files, task.leaf, task.advertise, second);
      last := Completion(task.leaf, ok, task.advertise, false, false, peer);
    }

    /** The loop's half of a deletion: os.Remove, best effort. */
    method RemoveOriginal(p: Path, removable: bool)
      requires Valid()
      modifies this`disk, this`history
      ensures Valid() && disk == if removable then old(disk) - {p} else old(disk)
    {
      if removable {
        disk := disk - {p};
        history := history + [disk];
      }
    }

    /** A coupled task and, when it ends in a deletion, the removal: content at the leaf's path that the copy
        preserves is still there, or at the copy's path. */
    method CarryOutCouple(files: Record, task: FetchTask, first: LeafIO, second: LeafIO, removable: bool)
      requires Valid() && task.preserve.Some? && task.preserve.value.path != task.leaf.path
      requires GoodPick(files, task.preserve.value, first.pick) && GoodPick(files, task.leaf, second.pick)
      requires HoldsContent(H, disk, task.leaf.path, task.preserve.value.contentHash)
      modifies this`disk, this`history, this`reports
      ensures Valid() && Survives(H, old(disk), disk, task, first)
    {
      ghost var was, n := disk, |reports|;
      RunCoupled(files, task, first, second);
      ghost var now := disk;
      var last := reports[|reports| - 1];
      assert last == reports[n..][1];
      if last.applyTomb { RemoveOriginal(task.leaf.path, removable); }
      CopyOrOriginal(H, peer, was, now, task, first, second, reports[n..], disk);
    }

    /** A conflict carried out end to end on the side that holds the losing bytes: execute, the puller, and the
        loop's handling of its report. Whatever fails, the losing content is still on disk somewhere. */
    method CarryOutConflict(N: Naming, files: Record, local: FileInfo, remote: FileInfo, tooLong: bool, queueFull: bool,
                            first: LeafIO, second: LeafIO, removable: bool)
      requires Valid() && Sane(local) && Sane(remote) && local.path == remote.path && !local.deleted
      requires Find(files, local.path) == Some(local) && local.ftype == TypeFile
      requires HoldsContent(H, disk, local.path, local.contentHash)
      requires InConflict(local, remote) && !NamingFails(N, local, remote) && Loser(local, remote) == local
      requires CopyOf(ResolvePair(N, local, remote)).value.path != local.path
      requires GoodPick(files, CopyOf(ResolvePair(N, local, remote)).value, first.pick)
      requires GoodPick(files, Winner(local, remote), second.pick)
      modifies this`disk, this`history, this`reports
      ensures Valid()
      ensures exists p | p in disk :: H(disk[p]) == local.contentHash
      ensures var copy := CopyOf(ResolvePair(N, local, remote)).value;
              !tooLong && !queueFull && Lands(H, old(disk), copy, first) ==> HoldsContent(H, disk, copy.path, local.contentHash)
    {
      LosersTask(N, files, local, remote, tooLong);
      var a := ActionFor(files, ResolvePair(N, local, remote), tooLong);
      if a.Enqueue? && !queueFull {
        CarryOutCouple(files, a.task, first, second, removable);
        assert local.path in disk || a.task.preserve.value.path in disk;
      } else {
        assert local.path in disk;
      }
    }
  }

  // ---- the case the copy rule does not cover ----

  /** A symbolic link that loses a conflict is not custodian content: its side removes it without a copy. */
  lemma {:induction false} LosingSymlinkIsRemoved(N: Naming, local: FileInfo, remote: FileInfo)
    requires Sane(local) && Sane(remote) && local.path == remote.path && !local.deleted && remote.deleted
    requires local.ftype == TypeSymlink && InConflict(local, remote) && Loser(local, remote) == local
    requires !NamingFails(N, local, remote)
    ensures ActionFor(map[local.path := local], ResolvePair(N, local, remote), false) == Remove(remote)
    ensures CopyOf(ResolvePair(N, local, remote)).Some?
  {
    LoserIsCoupled(N, map[local.path := local], local, remote, false);
    ConflictSymmetric(N, local, remote);
  }
}
