/** Local change detection: the rescan delta, and recovery across a restart
(internal/reconcile/engine.go rescan and restoreVVs, internal/merkle/scanner.go SynthesizeDeletions).

Both are specified per path: from the recorded leaf and the scanned leaf to the new recorded leaf. */
module Detection {
  import opened Basics
  import opened Paths
  import opened VersionVectors
  import opened FileInfos
  import opened Conflict
  import opened Resolve

  /** A scan result: live, without history. */
  predicate Scanned(s: FileInfo) { !s.deleted && s.version == [] }

  function VersionOf(prev: Option<FileInfo>): (v: VV) { if prev.Some? then prev.value.version else [] }

  /** The key rescan and onLocalChange compare. */
  predicate Unchanged(prev: FileInfo, s: FileInfo)
  {
    !prev.deleted && prev.contentHash == s.contentHash && prev.ftype == s.ftype && prev.size == s.size
  }

  function Authored(self: ShortID, prev: Option<FileInfo>, s: FileInfo): (f: FileInfo)
  {
    s.(version := Bumped(VersionOf(prev), self))
  }

  /** The recorded leaf after a rescan that finds s (None: not on disk). */
  function RescanAt(self: ShortID, prev: Option<FileInfo>, s: Option<FileInfo>, inflight: bool): (r: Option<FileInfo>)
  {
    if s.Some? then
      if prev.Some? && Unchanged(prev.value, s.value) then Some(prev.value.(mtime := s.value.mtime))
      else if inflight then prev
      else Some(Authored(self, prev, s.value))
    else if prev.Some? && !prev.value.deleted then Some(SetDeleted(prev.value, self))
    else prev
  }

  /** Whether the rescan authors the path, that is, puts it in the delta it broadcasts. */
  predicate InDelta(prev: Option<FileInfo>, s: Option<FileInfo>, inflight: bool)
  {
    if s.Some? then !(prev.Some? && Unchanged(prev.value, s.value)) && !inflight
    else prev.Some? && !prev.value.deleted
  }

  /** Off in-flight paths the record agrees with the disk; authored paths carry the old vector with only
      self's counter raised, all others keep theirs. */
  lemma {:induction false} RescanAgreesWithDisk(self: ShortID, prev: Option<FileInfo>, s: Option<FileInfo>)
    requires SaneOpt(prev) && At(VersionOf(prev), self) < TWO64 - 1
    requires s.Some? ==> Scanned(s.value)
    ensures var r := RescanAt(self, prev, s, false);
            && (s.Some? ==> r.Some? && Unchanged(r.value, s.value) && r.value.mtime == s.value.mtime)
            && (s.None? ==> r.None? || r.value.deleted)
            && (r.Some? && InDelta(prev, s, false) ==>
                  && Order(r.value.version, VersionOf(prev)) == Dominates
                  && At(r.value.version, self) == At(VersionOf(prev), self) + 1
                  && forall id: ShortID | id != self :: At(r.value.version, id) == At(VersionOf(prev), id))
            && (!InDelta(prev, s, false) ==> VersionOf(r) == VersionOf(prev))
            && (InDelta(prev, s, false) ==> r.Some?)
  {
    BumpDominates(VersionOf(prev), self);
  }

  /** A file found on disk is authored exactly when it is new, comes back, or differs in content, type or size from
      what is on record. The new record is then what was scanned but for the vector; otherwise it is the old record but
      for the mtime. */
  lemma {:induction false} RescanRecords(self: ShortID, prev: Option<FileInfo>, s: FileInfo)
    requires Scanned(s)
    ensures InDelta(prev, Some(s), false)
            <==> || prev.None? || prev.value.deleted || prev.value.contentHash != s.contentHash
                 || prev.value.ftype != s.ftype || prev.value.size != s.size
    ensures var r := RescanAt(self, prev, Some(s), false);
            r.Some? && if InDelta(prev, Some(s), false) then r.value.(version := []) == s
                       else r == Some(prev.value.(mtime := s.mtime))
  {
  }

  /** A vanished file keeps its path, mode, mtime and type in its tombstone, and nothing of its content. */
  lemma {:induction false} VanishedRecords(self: ShortID, prev: FileInfo, inflight: bool)
    requires !prev.deleted
    ensures var r := RescanAt(self, Some(prev), None, inflight);
            r.Some? && r.value.deleted && r.value.contentHash == ZeroDigest && r.value.size == 0
            && r.value.(version := prev.version, deleted := false, contentHash := prev.contentHash, size := prev.size) == prev
  {
  }

  /** In-flight paths: a present file is left alone; a vanished one is tombstoned all the same. */
  lemma {:induction false} RescanInFlight(self: ShortID, prev: Option<FileInfo>, s: Option<FileInfo>)
    ensures s.Some? ==> !InDelta(prev, s, true) && VersionOf(RescanAt(self, prev, s, true)) == VersionOf(prev)
    ensures s.None? ==> RescanAt(self, prev, s, true) == RescanAt(self, prev, s, false)
    ensures s.None? ==> InDelta(prev, s, true) == InDelta(prev, s, false)
  {
  }

  /** A second rescan of the same disk authors nothing and changes nothing. */
  lemma {:induction false} RescanIdempotent(self: ShortID, prev: Option<FileInfo>, s: Option<FileInfo>, inflight: bool)
    requires s.Some? ==> Scanned(s.value)
    ensures var r := RescanAt(self, prev, s, inflight);
            RescanAt(self, r, s, inflight) == r && !InDelta(r, s, inflight)
  {
  }

  /** Right after a completed apply of leaf, a rescan that finds the verified bytes authors nothing,
      exactly when the advertised size is the true one. */
  lemma {:induction false} RescanAfterApply(self: ShortID, leaf: FileInfo, s: FileInfo)
    requires !leaf.deleted && leaf.ftype == TypeFile
    requires Scanned(s) && s.ftype == TypeFile && s.contentHash == leaf.contentHash
    ensures InDelta(Some(leaf), Some(s), false) <==> s.size != leaf.size
    ensures s.size == leaf.size ==> RescanAt(self, Some(leaf), Some(s), false) == Some(leaf.(mtime := s.mtime))
  {
  }

  // ---- restart ----

  function Restored(self: ShortID, p: Option<FileInfo>, s: FileInfo): (f: FileInfo)
  {
    if p.None? then s
    else if p.value.deleted then s.(version := Bumped(p.value.version, self))
    else if p.value.contentHash == s.contentHash && p.value.ftype == s.ftype then s.(version := p.value.version)
    else s.(version := Bumped(p.value.version, self))
  }

  function Kept(self: ShortID, p: FileInfo): (f: FileInfo) { if p.deleted then p else SetDeleted(p, self) }

  /** The leaf startup records for a path with snapshot leaf p and scanned leaf s. */
  function RestartAt(self: ShortID, p: Option<FileInfo>, s: Option<FileInfo>): (r: Option<FileInfo>)
  {
    if s.Some? then Some(Restored(self, p, s.value))
    else if p.Some? then Some(Kept(self, p.value))
    else None
  }

  predicate BrandNew(p: Option<FileInfo>, s: Option<FileInfo>) { p.None? && s.Some? }

  /** Same hash and type but another size: a torn record, which only the rescan heals. */
  predicate Torn(p: Option<FileInfo>, s: Option<FileInfo>)
  {
    p.Some? && s.Some? && !p.value.deleted && p.value.contentHash == s.value.contentHash
    && p.value.ftype == s.value.ftype && p.value.size != s.value.size
  }

  /** Restart recovery gives the content a live rescan from the snapshot would; the vectors differ exactly for
      brand-new paths (which keep the empty vector) and torn records. */
  lemma {:induction false} RestartAgreesWithRescan(self: ShortID, p: Option<FileInfo>, s: Option<FileInfo>)
    requires SaneOpt(p) && (s.Some? ==> Scanned(s.value))
    requires p.Some? && s.Some? ==> p.value.path == s.value.path
    ensures var r, q := RestartAt(self, p, s), RescanAt(self, p, s, false);
            && r.Some? == q.Some?
            && (r.Some? ==> r.value.contentHash == q.value.contentHash && r.value.ftype == q.value.ftype
                            && r.value.deleted == q.value.deleted && r.value.path == q.value.path)
            && (VersionOf(r) == VersionOf(q) <==> !BrandNew(p, s) && !Torn(p, s))
            && (BrandNew(p, s) ==> VersionOf(r) == [])
            && (s.Some? ==> r.value.(version := []) == s.value)
  {
    BumpedAt(VersionOf(p), self, self);
  }

  /** A file recreated or edited while the daemon was down supersedes what the snapshot held: a peer still holding
      that takes the file, and this side does not go back. */
  lemma {:induction false} DownEditIsAccepted(N: Naming, self: ShortID, p: FileInfo, s: FileInfo)
    requires Sane(p) && Scanned(s) && s.contentHash != ZeroDigest && p.path == s.path
    requires p.deleted || p.contentHash != s.contentHash
    requires At(p.version, self) < TWO64 - 1
    ensures var f := RestartAt(self, Some(p), Some(s)).value;
            ResolvePair(N, p, f) == Install(f) && ResolvePair(N, f, p) == NoOp
  {
    BumpDominates(p.version, self);
    MergedAbsorbs(p.version, Bumped(p.version, self));
  }

  // ---- the list algorithms ----

  /** A list as a map by path; a later entry replaces an earlier one. */
  function MapOf(fis: seq<FileInfo>): (m: map<Path, FileInfo>)
  {
    if fis == [] then map[] else MapOf(fis[..|fis| - 1])[fis[|fis| - 1].path := fis[|fis| - 1]]
  }

  lemma {:induction false} MapOfSnoc(fis: seq<FileInfo>, i: nat)
    requires i < |fis|
    ensures MapOf(fis[..i + 1]) == MapOf(fis[..i])[fis[i].path := fis[i]]
  {
    assert fis[..i + 1][..i] == fis[..i];
  }

  lemma {:induction false} MapOfAppend(fis: seq<FileInfo>, f: FileInfo)
    ensures MapOf(fis + [f]) == MapOf(fis)[f.path := f]
  {
    assert (fis + [f])[..|fis|] == fis;
  }

  lemma {:induction false} MapOfKeyed(fis: seq<FileInfo>)
    ensures forall p | p in MapOf(fis) :: MapOf(fis)[p].path == p
  {
    if fis != [] { MapOfKeyed(fis[..|fis| - 1]); }
  }

  method BuildMap(fis: seq<FileInfo>) returns (m: map<Path, FileInfo>)
    ensures m == MapOf(fis)
  {
    m := map[];
    for i := 0 to |fis|
      invariant m == MapOf(fis[..i])
    {
      MapOfSnoc(fis, i);
      m := m[fis[i].path := fis[i]];
    }
    assert fis[..|fis|] == fis;
  }

  method RestoreVVs(prev: seq<FileInfo>, cur: seq<FileInfo>, self: ShortID) returns (out: seq<FileInfo>)
    ensures forall p :: Find(MapOf(out), p) ==
                        if p in MapOf(cur) then Some(Restored(self, Find(MapOf(prev), p), MapOf(cur)[p])) else None
  {
    if prev == [] { return cur; }
    var byPath := BuildMap(prev);
    out := [];
    for i := 0 to |cur|
      invariant |out| == i
      invariant forall p :: Find(MapOf(out), p) ==
                            if p in MapOf(cur[..i]) then Some(Restored(self, Find(byPath, p), MapOf(cur[..i])[p])) else None
    {
      MapOfSnoc(cur, i);
      var f := cur[i];
      if cur[i].path in byPath {
        var p := byPath[cur[i].path];
        if p.deleted {
          f := f.(version := Bumped(p.version, self));
        } else if p.contentHash == f.contentHash && p.ftype == f.ftype {
          f := f.(version := p.version);
        } else {
          f := f.(version := Bumped(p.version, self));
        }
      }
      MapOfAppend(out, f);
      out := out + [f];
    }
    assert cur[..|cur|] == cur;
  }

  method SynthesizeDeletions(prev: seq<FileInfo>, cur: seq<FileInfo>, self: ShortID) returns (out: seq<FileInfo>)
    ensures forall p :: Find(MapOf(out), p) ==
                        if p in MapOf(cur) then Some(MapOf(cur)[p])
                        else if p in MapOf(prev) then Some(Kept(self, MapOf(prev)[p])) else None
  {
    if prev == [] { return cur; }
    var present := BuildMap(cur);
    out := cur;
    MapOfKeyed(prev);
    for i := 0 to |prev|
      invariant forall p :: Find(MapOf(out), p) ==
                            if p in MapOf(cur) then Some(MapOf(cur)[p])
                            else if p in MapOf(prev[..i]) then Some(Kept(self, MapOf(prev[..i])[p])) else None
    {
      MapOfSnoc(prev, i);
      var p := prev[i];
      if p.path in present { continue; }
      var f := p;
      if !p.deleted { f := SetDeleted(p, self); }
      MapOfAppend(out, f);
      out := out + [f];
    }
    assert prev[..|prev|] == prev;
  }

  /** startupReconcile up to the sweep: restore the vectors, then synthesise the deletions. */
  method Recover(prev: seq<FileInfo>, cur: seq<FileInfo>, self: ShortID) returns (files: map<Path, FileInfo>)
    ensures forall p :: Find(files, p) == RestartAt(self, Find(MapOf(prev), p), Find(MapOf(cur), p))
    ensures forall p | p in files :: files[p].path == p
  {
    var restored := RestoreVVs(prev, cur, self);
    var all := SynthesizeDeletions(prev, restored, self);
    files := BuildMap(all);
    MapOfKeyed(all);
    forall p ensures Find(files, p) == RestartAt(self, Find(MapOf(prev), p), Find(MapOf(cur), p)) {
      assert Find(MapOf(restored), p) ==
             if p in MapOf(cur) then Some(Restored(self, Find(MapOf(prev), p), MapOf(cur)[p])) else None;
      assert Find(files, p) ==
             if p in MapOf(restored) then Some(MapOf(restored)[p])
             else if p in MapOf(prev) then Some(Kept(self, MapOf(prev)[p])) else None;
    }
  }
}
