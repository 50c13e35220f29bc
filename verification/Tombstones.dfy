/** Tombstone GC and ghost-counter pruning (internal/reconcile/tombstone.go), as functions of the record. */
module Tombstones {
  import opened Basics
  import opened Paths
  import opened VersionVectors
  import opened FileInfos
  import opened Resolve

  type Record = map<Path, FileInfo>
  type DeviceID = U64

  datatype Peer = Peer(short: ShortID, index: Record, inflight: set<Path>)
  type Peers = map<DeviceID, Peer>

  /** An advertised leaf acknowledges the deletion: a tombstone whose vector dominates or equals ours. */
  predicate Acknowledges(advertised: Option<FileInfo>, tomb: FileInfo)
  {
    && advertised.Some? && advertised.value.deleted
    && Order(advertised.value.version, tomb.version) in {Dominates, Equal}
  }

  predicate CanGC(tomb: FileInfo, index: Record) { Acknowledges(Find(index, tomb.path), tomb) }

  predicate Collectable(f: FileInfo, peers: Peers)
  {
    f.deleted && forall d | d in peers :: CanGC(f, peers[d].index)
  }

  function AfterGC(files: Record, peers: Peers): (r: Record)
  {
    if peers == map[] then files else map p | p in files && !Collectable(files[p], peers) :: files[p]
  }

  /** w counts at least v's edits of every device. */
  ghost predicate Knows(w: VV, v: VV) { forall id: ShortID :: At(v, id) <= At(w, id) }

  /** The peer's index shows a deletion at p that knows every edit v counts. */
  ghost predicate ShowsDeletion(index: Record, p: Path, v: VV)
  {
    p in index && index[p].deleted && Knows(index[p].version, v)
  }

  lemma {:induction false} KnowsIsOrder(w: VV, v: VV)
    requires Canonical(v)
    ensures Order(w, v) in {Dominates, Equal} <==> Knows(w, v)
  {
    if Leq(v, w) {
      forall id: ShortID ensures At(v, id) <= At(w, id) { LeqAt(v, w, id); }
    } else {
      var i :| 0 <= i < |v| && v[i].value > At(w, v[i].id);
      AtMember(v, i);
      assert At(v, v[i].id) > At(w, v[i].id);
    }
  }

  lemma {:induction false} AcknowledgedShows(tomb: FileInfo, index: Record)
    requires Canonical(tomb.version)
    ensures CanGC(tomb, index) <==> ShowsDeletion(index, tomb.path, tomb.version)
  {
    if tomb.path in index { KnowsIsOrder(index[tomb.path].version, tomb.version); }
  }

  /** A tombstone is forgotten only on every peer's word: with no peer connected nothing is, and otherwise exactly the
      tombstones for which each connected peer shows a deletion with pointwise at least the counts. */
  lemma {:induction false} ForgottenOnlyOnEveryWord(files: Record, peers: Peers)
    requires CanonicalRecord(files) && forall p | p in files :: files[p].path == p
    ensures peers == map[] ==> AfterGC(files, peers) == files
    ensures forall p | p in AfterGC(files, peers) :: p in files && AfterGC(files, peers)[p] == files[p]
    ensures forall p | p in files ::
              p !in AfterGC(files, peers) <==>
              files[p].deleted && peers != map[] && forall d | d in peers :: ShowsDeletion(peers[d].index, p, files[p].version)
  {
    forall p | p in files
      ensures p !in AfterGC(files, peers) <==>
              files[p].deleted && peers != map[] && forall d | d in peers :: ShowsDeletion(peers[d].index, p, files[p].version)
    {
      forall d | d in peers ensures CanGC(files[p], peers[d].index) <==> ShowsDeletion(peers[d].index, p, files[p].version) {
        AcknowledgedShows(files[p], peers[d].index);
      }
    }
  }

  function AfterDrop(files: Record, id: ShortID): (r: Record)
  {
    map p | p in files :: files[p].(version := Without(files[p].version, id))
  }

  function AfterSweep(files: Record, paired: set<ShortID>): (r: Record)
  {
    map p | p in files :: files[p].(version := Pruned(files[p].version, paired))
  }

  predicate CanonicalRecord(files: Record) { forall p | p in files :: Canonical(files[p].version) }

  /** files is was with the counters of the devices in gone dropped. */
  ghost predicate Dropped(files: Record, was: Record, gone: seq<ShortID>)
  {
    files.Keys == was.Keys && forall p | p in files :: files[p] == was[p].(version := WithoutAll(was[p].version, gone))
  }

  lemma {:induction false} DropOneMore(files: Record, was: Record, gone: seq<ShortID>, id: ShortID)
    requires Dropped(files, was, gone)
    ensures Dropped(AfterDrop(files, id), was, gone + [id])
  {
    assert (gone + [id])[..|gone|] == gone;
  }

  /** Dropping every unpaired device that occurs, in any order, is pruning to the paired ones. */
  lemma {:induction false} DropsArePruning(files: Record, was: Record, gone: seq<ShortID>, paired: set<ShortID>)
    requires Dropped(files, was, gone)
    requires forall id | id in gone :: id !in paired
    requires forall p, i | p in was && 0 <= i < |was[p].version| :: was[p].version[i].id in paired || was[p].version[i].id in gone
    ensures files == AfterSweep(was, paired)
  {
    forall p | p in files ensures files[p].version == Pruned(was[p].version, paired) {
      DropsArePruned(was[p].version, paired, gone);
    }
  }

  /** g is f but for its counts, which are f's for the live devices and 0 for all others. */
  ghost predicate OnlyCountsGo(f: FileInfo, g: FileInfo, live: ShortID -> bool)
  {
    g.(version := f.version) == f && forall x: ShortID :: At(g.version, x) == if live(x) then At(f.version, x) else 0
  }

  /** A drop and a sweep keep every path and touch nothing but the counts of the devices that go. */
  lemma {:induction false} DropsTouchCounts(files: Record, id: ShortID, paired: set<ShortID>)
    requires CanonicalRecord(files)
    ensures AfterDrop(files, id).Keys == AfterSweep(files, paired).Keys == files.Keys
    ensures forall p | p in files :: OnlyCountsGo(files[p], AfterDrop(files, id)[p], x => x != id)
    ensures forall p | p in files :: OnlyCountsGo(files[p], AfterSweep(files, paired)[p], x => x in paired)
  {
    forall p | p in files
      ensures OnlyCountsGo(files[p], AfterDrop(files, id)[p], x => x != id)
      ensures OnlyCountsGo(files[p], AfterSweep(files, paired)[p], x => x in paired)
    {
      WithoutMeaning(files[p].version, id, -1);
      PrunedMeaning(files[p].version, paired, -1);
    }
  }

  predicate InFlight(peers: Peers, key: Path) { exists d | d in peers :: key in peers[d].inflight }
}
