/** reconcileWithPeer's dispatch (internal/reconcile/engine.go): verdicts are bucketed, creates are paired with
tombstones whose old bytes they can reuse, and everything not in flight is dispatched once. */
module Pairing {
  import opened Basics
  import opened Paths
  import opened FileInfos
  import opened Conflict
  import opened Resolve
  import opened Diff
  import opened Tombstones
  import opened Apply

  datatype TombInstall = TombInstall(leaf: FileInfo, oldHash: Digest, hasOld: bool)

  /** What is handed on for the creates and tombstones of one reconcile, in order. */
  datatype Dispatch = DoRename(create: FileInfo, tomb: FileInfo) | DoFetch(leaf: FileInfo) | DoRemove(leaf: FileInfo)

  predicate Concerns(d: Dispatch, p: Path)
  {
    if d.DoRename? then d.create.path == p || d.tomb.path == p else d.leaf.path == p
  }

  function Mentions(log: seq<Dispatch>, p: Path): (n: nat)
  {
    if log == [] then 0 else Mentions(log[..|log| - 1], p) + if Concerns(log[|log| - 1], p) then 1 else 0
  }

  lemma {:induction false} MentionsSnoc(log: seq<Dispatch>, d: Dispatch, p: Path)
    ensures Mentions(log + [d], p) == Mentions(log, p) + if Concerns(d, p) then 1 else 0
  {
    assert (log + [d])[..|log|] == log;
  }

  // ---- bucketing ----

  predicate IsClash(e: PathEntry) { e.localDir || e.remoteDir }

  predicate PathsMatch(e: PathEntry)
  {
    (e.local.Some? ==> e.local.value.path == e.path) && (e.remote.Some? ==> e.remote.value.path == e.path)
  }

  /** The verdict for one diff entry; a type clash is never fed to the resolver. */
  function Verdict(N: Naming, e: PathEntry): (p: Plan) { if IsClash(e) then NoOp else Decide(N, e.local, e.remote) }

  function TombOf(e: PathEntry, f: FileInfo): (t: TombInstall)
  {
    if e.local.Some? && !e.local.value.deleted && e.local.value.ftype == TypeFile
    then TombInstall(f, e.local.value.contentHash, true)
    else TombInstall(f, ZeroDigest, false)
  }

  function Creates(N: Naming, es: seq<PathEntry>): (r: seq<FileInfo>)
  {
    if es == [] then [] else
      var v := Verdict(N, es[|es| - 1]);
      Creates(N, es[..|es| - 1]) + if v.Install? && !v.leaf.deleted then [v.leaf] else []
  }

  function Tombs(N: Naming, es: seq<PathEntry>): (r: seq<TombInstall>)
  {
    if es == [] then [] else
      var v := Verdict(N, es[|es| - 1]);
      Tombs(N, es[..|es| - 1]) + if v.Install? && v.leaf.deleted then [TombOf(es[|es| - 1], v.leaf)] else []
  }

  ghost predicate DistinctEntries(es: seq<PathEntry>)
  {
    && (forall i | 0 <= i < |es| :: PathsMatch(es[i]))
    && (forall i, j | 0 <= i < j < |es| :: es[i].path != es[j].path)
  }

  /** All creates and tombstones of a diff are at different paths. */
  ghost predicate Separate(cs: seq<FileInfo>, ts: seq<TombInstall>)
  {
    && (forall i, j | 0 <= i < j < |cs| :: cs[i].path != cs[j].path)
    && (forall i, j | 0 <= i < j < |ts| :: ts[i].leaf.path != ts[j].leaf.path)
    && (forall i, j | 0 <= i < |cs| && 0 <= j < |ts| :: cs[i].path != ts[j].leaf.path)
  }

  lemma {:induction false} VerdictPath(N: Naming, e: PathEntry)
    requires PathsMatch(e)
    ensures Verdict(N, e).Install? ==> Verdict(N, e).leaf.path == e.path
    ensures Verdict(N, e).KeepBoth? ==> Verdict(N, e).winner.path == e.path
  {
  }

  ghost predicate AllFrom(es: seq<PathEntry>, cs: seq<FileInfo>, ts: seq<TombInstall>)
  {
    && (forall c | 0 <= c < |cs| :: exists i | 0 <= i < |es| :: es[i].path == cs[c].path)
    && (forall t | 0 <= t < |ts| :: exists i | 0 <= i < |es| :: es[i].path == ts[t].leaf.path)
  }

  lemma {:induction false} FromLonger(es: seq<PathEntry>, e: PathEntry, cs: seq<FileInfo>, ts: seq<TombInstall>)
    requires AllFrom(es, cs, ts) && DistinctEntries(es + [e])
    ensures AllFrom(es + [e], cs, ts)
    ensures (forall c | 0 <= c < |cs| :: cs[c].path != e.path) && (forall t | 0 <= t < |ts| :: ts[t].leaf.path != e.path)
  {
    var all := es + [e];
    assert all[|es|] == e;
    forall c | 0 <= c < |cs| ensures (exists i | 0 <= i < |all| :: all[i].path == cs[c].path) && cs[c].path != e.path {
      var i :| 0 <= i < |es| && es[i].path == cs[c].path;
      assert all[i].path == cs[c].path;
    }
    forall t | 0 <= t < |ts|
      ensures (exists i | 0 <= i < |all| :: all[i].path == ts[t].leaf.path) && ts[t].leaf.path != e.path
    {
      var i :| 0 <= i < |es| && es[i].path == ts[t].leaf.path;
      assert all[i].path == ts[t].leaf.path;
    }
  }

  /** One more create or tombstone at a path of its own. */
  lemma {:induction false} SeparateSnoc(cs: seq<FileInfo>, ts: seq<TombInstall>, f: FileInfo, t: TombInstall)
    requires Separate(cs, ts)
    ensures (forall c | 0 <= c < |cs| :: cs[c].path != f.path) && (forall i | 0 <= i < |ts| :: ts[i].leaf.path != f.path)
            ==> Separate(cs + [f], ts)
    ensures (forall c | 0 <= c < |cs| :: cs[c].path != t.leaf.path) && (forall i | 0 <= i < |ts| :: ts[i].leaf.path != t.leaf.path)
            ==> Separate(cs, ts + [t])
  {
  }

  /** All creates and tombstones of a diff are at different paths, each the path of an entry. */
  lemma {:induction false} BucketPaths(N: Naming, es: seq<PathEntry>)
    requires DistinctEntries(es)
    ensures AllFrom(es, Creates(N, es), Tombs(N, es)) && Separate(Creates(N, es), Tombs(N, es))
  {
    if es != [] {
      var init, e := es[..|es| - 1], es[|es| - 1];
      assert es == init + [e];
      BucketPaths(N, init);
      VerdictPath(N, e);
      FromLonger(init, e, Creates(N, init), Tombs(N, init));
      var v := Verdict(N, e);
      if v.Install? { SeparateSnoc(Creates(N, init), Tombs(N, init), v.leaf, TombOf(e, v.leaf)); }
      assert es[|es| - 1].path == e.path;
      assert Creates(N, init) + [] == Creates(N, init) && Tombs(N, init) + [] == Tombs(N, init);
    }
  }

  // ---- pairing ----

  /** Which paths a log has mentioned so far, each at most once. */
  ghost predicate Logged(log: seq<Dispatch>, cs: seq<FileInfo>, ts: seq<TombInstall>, doneC: set<nat>, doneT: set<nat>)
  {
    && (forall c | 0 <= c < |cs| :: Mentions(log, cs[c].path) == if c in doneC then 1 else 0)
    && (forall t | 0 <= t < |ts| :: Mentions(log, ts[t].leaf.path) == if t in doneT then 1 else 0)
  }

  lemma {:induction false} LogRename(log: seq<Dispatch>, cs: seq<FileInfo>, ts: seq<TombInstall>, C: set<nat>, T: set<nat>, c: nat, t: nat)
    requires Separate(cs, ts) && Logged(log, cs, ts, C, T) && c < |cs| && t < |ts| && c !in C && t !in T
    ensures Logged(log + [DoRename(cs[c], ts[t].leaf)], cs, ts, C + {c}, T + {t})
  {
    var d := DoRename(cs[c], ts[t].leaf);
    forall i | 0 <= i < |cs| ensures Mentions(log + [d], cs[i].path) == if i in C + {c} then 1 else 0 {
      MentionsSnoc(log, d, cs[i].path);
    }
    forall i | 0 <= i < |ts| ensures Mentions(log + [d], ts[i].leaf.path) == if i in T + {t} then 1 else 0 {
      MentionsSnoc(log, d, ts[i].leaf.path);
    }
  }

  lemma {:induction false} LogFetch(log: seq<Dispatch>, cs: seq<FileInfo>, ts: seq<TombInstall>, C: set<nat>, T: set<nat>, c: nat)
    requires Separate(cs, ts) && Logged(log, cs, ts, C, T) && c < |cs| && c !in C
    ensures Logged(log + [DoFetch(cs[c])], cs, ts, C + {c}, T)
  {
    var d := DoFetch(cs[c]);
    forall i | 0 <= i < |cs| ensures Mentions(log + [d], cs[i].path) == if i in C + {c} then 1 else 0 {
      MentionsSnoc(log, d, cs[i].path);
    }
    forall i | 0 <= i < |ts| ensures Mentions(log + [d], ts[i].leaf.path) == if i in T then 1 else 0 {
      MentionsSnoc(log, d, ts[i].leaf.path);
    }
  }

  lemma {:induction false} LogRemove(log: seq<Dispatch>, cs: seq<FileInfo>, ts: seq<TombInstall>, C: set<nat>, T: set<nat>, t: nat)
    requires Separate(cs, ts) && Logged(log, cs, ts, C, T) && t < |ts| && t !in T
    ensures Logged(log + [DoRemove(ts[t].leaf)], cs, ts, C, T + {t})
  {
    var d := DoRemove(ts[t].leaf);
    forall i | 0 <= i < |cs| ensures Mentions(log + [d], cs[i].path) == if i in C then 1 else 0 {
      MentionsSnoc(log, d, cs[i].path);
    }
    forall i | 0 <= i < |ts| ensures Mentions(log + [d], ts[i].leaf.path) == if i in T + {t} then 1 else 0 {
      MentionsSnoc(log, d, ts[i].leaf.path);
    }
  }

  /** d hands on bucketed verdicts only, and couples only equal content. */
  predicate SoundDispatch(d: Dispatch, cs: seq<FileInfo>, ts: seq<TombInstall>)
  {
    match d
    case DoRename(create, tomb) =>
      create in cs && exists t | t in ts :: t.leaf == tomb && t.hasOld && t.oldHash == create.contentHash
    case DoFetch(leaf) => leaf in cs
    case DoRemove(leaf) => exists t | t in ts :: t.leaf == leaf
  }

  ghost predicate SoundLog(log: seq<Dispatch>, cs: seq<FileInfo>, ts: seq<TombInstall>)
  {
    forall d | d in log :: SoundDispatch(d, cs, ts)
  }

  lemma {:induction false} Unmentioned(log: seq<Dispatch>, cs: seq<FileInfo>, ts: seq<TombInstall>, p: Path)
    requires SoundLog(log, cs, ts)
    requires (forall c | c in cs :: c.path != p) && (forall t | t in ts :: t.leaf.path != p)
    ensures Mentions(log, p) == 0
  {
    if log != [] {
      var d := log[|log| - 1];
      assert d in log && SoundDispatch(d, cs, ts);
      Unmentioned(log[..|log| - 1], cs, ts, p);
    }
  }

  // ---- no rename is missed ----

  /** The bytes a create needs are those the tombstone's path still holds. */
  predicate Reusable(create: FileInfo, t: TombInstall) { t.hasOld && t.oldHash == create.contentHash }

  /** No create dispatched alone could have reused the bytes of a tombstone dispatched alone. */
  ghost predicate PairedUp(log: seq<Dispatch>, ts: seq<TombInstall>)
  {
    forall d, e, t | d in log && e in log && t in ts && d.DoFetch? && e.DoRemove? && t.leaf == e.leaf :: !Reusable(d.leaf, t)
  }

  /** Of the creates and tombstones that were not in flight, none outside C could reuse the bytes of one outside T. */
  ghost predicate NonePairable(was: set<Path>, cs: seq<FileInfo>, ts: seq<TombInstall>, C: set<nat>, T: set<nat>, n: nat)
    requires n <= |cs|
  {
    forall c, t | 0 <= c < n && 0 <= t < |ts| && c !in C && t !in T && cs[c].path !in was && ts[t].leaf.path !in was ::
      !Reusable(cs[c], ts[t])
  }

  lemma {:induction false} NoPartner(was: set<Path>, cs: seq<FileInfo>, ts: seq<TombInstall>, C: set<nat>, T: set<nat>, n: nat)
    requires n < |cs| && NonePairable(was, cs, ts, C, T, n)
    requires cs[n].path in was || forall t | 0 <= t < |ts| && t !in T && ts[t].leaf.path !in was :: !Reusable(cs[n], ts[t])
    ensures NonePairable(was, cs, ts, C, T, n + 1)
  {
  }

  lemma {:induction false} PairTaken(was: set<Path>, cs: seq<FileInfo>, ts: seq<TombInstall>, C: set<nat>, T: set<nat>, n: nat, t: nat)
    requires n < |cs| && NonePairable(was, cs, ts, C, T, n)
    ensures NonePairable(was, cs, ts, C + {n}, T + {t}, n + 1)
  {
  }

  /** The marks of the pair loop once it has met the first n creates. */
  ghost predicate Marks(was: set<Path>, cs: seq<FileInfo>, createDone: seq<bool>, tombPaired: seq<bool>, C: set<nat>, T: set<nat>, n: nat)
    requires n <= |cs|
  {
    && |createDone| == |cs| && (forall c | c in C :: c < n)
    && (forall c | 0 <= c < |cs| :: createDone[c] <==> c in C || (c < n && cs[c].path in was))
    && (forall t | 0 <= t < |tombPaired| :: tombPaired[t] <==> t in T)
  }

  lemma {:induction false} MarkAlone(was: set<Path>, cs: seq<FileInfo>, createDone: seq<bool>, tombPaired: seq<bool>,
                                     C: set<nat>, T: set<nat>, n: nat)
    requires n < |cs| && Marks(was, cs, createDone, tombPaired, C, T, n)
    ensures Marks(was, cs, if cs[n].path in was then createDone[n := true] else createDone, tombPaired, C, T, n + 1)
  {
  }

  lemma {:induction false} MarkPair(was: set<Path>, cs: seq<FileInfo>, createDone: seq<bool>, tombPaired: seq<bool>,
                                    C: set<nat>, T: set<nat>, n: nat, t: nat)
    requires n < |cs| && t < |tombPaired| && Marks(was, cs, createDone, tombPaired, C, T, n)
    ensures Marks(was, cs, createDone[n := true], tombPaired[t := true], C + {n}, T + {t}, n + 1)
  {
  }

  /** What the log dispatched alone comes from outside C and T, off flight. */
  ghost predicate AloneFrom(log: seq<Dispatch>, was: set<Path>, cs: seq<FileInfo>, ts: seq<TombInstall>, C: set<nat>, T: set<nat>)
  {
    && (forall d | d in log && d.DoFetch? :: exists c :: 0 <= c < |cs| && c !in C && cs[c].path !in was && cs[c] == d.leaf)
    && (forall d | d in log && d.DoRemove? ::
          exists t :: 0 <= t < |ts| && t !in T && ts[t].leaf.path !in was && ts[t].leaf == d.leaf)
  }

  ghost predicate RenamesOnly(log: seq<Dispatch>) { forall d | d in log :: d.DoRename? }

  lemma {:induction false} NoneAlone(log: seq<Dispatch>, was: set<Path>, cs: seq<FileInfo>, ts: seq<TombInstall>, C: set<nat>, T: set<nat>)
    requires RenamesOnly(log)
    ensures AloneFrom(log, was, cs, ts, C, T)
  {
  }

  lemma {:induction false} FetchedAlone(log: seq<Dispatch>, was: set<Path>, cs: seq<FileInfo>, ts: seq<TombInstall>,
                                        C: set<nat>, T: set<nat>, c: nat)
    requires AloneFrom(log, was, cs, ts, C, T) && c < |cs| && c !in C && cs[c].path !in was
    ensures AloneFrom(log + [DoFetch(cs[c])], was, cs, ts, C, T)
  {
    AloneSnoc(log, was, cs, ts, C, T, DoFetch(cs[c]));
  }

  lemma {:induction false} RemovedAlone(log: seq<Dispatch>, was: set<Path>, cs: seq<FileInfo>, ts: seq<TombInstall>,
                                        C: set<nat>, T: set<nat>, t: nat)
    requires AloneFrom(log, was, cs, ts, C, T) && t < |ts| && t !in T && ts[t].leaf.path !in was
    ensures AloneFrom(log + [DoRemove(ts[t].leaf)], was, cs, ts, C, T)
  {
    AloneSnoc(log, was, cs, ts, C, T, DoRemove(ts[t].leaf));
  }

  lemma {:induction false} AloneSnoc(log: seq<Dispatch>, was: set<Path>, cs: seq<FileInfo>, ts: seq<TombInstall>,
                                     C: set<nat>, T: set<nat>, d: Dispatch)
    requires AloneFrom(log, was, cs, ts, C, T)
    requires d.DoFetch? ==> exists c :: 0 <= c < |cs| && c !in C && cs[c].path !in was && cs[c] == d.leaf
    requires d.DoRemove? ==> exists t :: 0 <= t < |ts| && t !in T && ts[t].leaf.path !in was && ts[t].leaf == d.leaf
    ensures AloneFrom(log + [d], was, cs, ts, C, T)
  {
    forall e | e in log + [d] ensures e in log || e == d {}
  }

  lemma {:induction false} NoMissedPair(log: seq<Dispatch>, was: set<Path>, cs: seq<FileInfo>, ts: seq<TombInstall>,
                                        C: set<nat>, T: set<nat>)
    requires Separate(cs, ts) && AloneFrom(log, was, cs, ts, C, T) && NonePairable(was, cs, ts, C, T, |cs|)
    ensures PairedUp(log, ts)
  {
    forall d, e, t | d in log && e in log && t in ts && d.DoFetch? && e.DoRemove? && t.leaf == e.leaf ensures !Reusable(d.leaf, t) {
      var c :| 0 <= c < |cs| && c !in C && cs[c].path !in was && cs[c] == d.leaf;
      var i :| 0 <= i < |ts| && i !in T && ts[i].leaf.path !in was && ts[i].leaf == e.leaf;
      var j :| 0 <= j < |ts| && ts[j] == t;
      assert i == j;
    }
  }

  // ---- what dispatching does ----

  /** The task of a dispatched create or pair; the deletion half of a pair rides behind its create. */
  function TaskOf(d: Dispatch): (t: FetchTask)
    requires !d.DoRemove?
  {
    if d.DoFetch? then FetchTask(d.leaf, false, None, false) else FetchTask(d.tomb, false, Some(d.create), false)
  }

  /** How many sends to the puller queue a log makes. */
  function Sends(log: seq<Dispatch>): (n: nat)
  {
    if log == [] then 0 else Sends(log[..|log| - 1]) + if log[|log| - 1].DoRemove? then 0 else 1
  }

  /** The tasks that find room: room(k) says whether the k-th send does. */
  function Accepted(room: nat -> bool, first: nat, log: seq<Dispatch>): (ts: seq<FetchTask>)
  {
    if log == [] then []
    else
      var init, d := log[..|log| - 1], log[|log| - 1];
      Accepted(room, first, init) + if !d.DoRemove? && room(first + Sends(init)) then [TaskOf(d)] else []
  }

  /** The tombstones applied on the spot: those dispatched alone. */
  function Removed(log: seq<Dispatch>): (fs: seq<FileInfo>)
  {
    if log == [] then []
    else
      var d := log[|log| - 1];
      Removed(log[..|log| - 1]) + if d.DoRemove? then [d.leaf] else []
  }

  lemma {:induction false} LogSnoc(room: nat -> bool, first: nat, log: seq<Dispatch>, d: Dispatch)
    ensures Sends(log + [d]) == Sends(log) + if d.DoRemove? then 0 else 1
    ensures Removed(log + [d]) == Removed(log) + if d.DoRemove? then [d.leaf] else []
    ensures Accepted(room, first, log + [d]) ==
            Accepted(room, first, log) + if !d.DoRemove? && room(first + Sends(log)) then [TaskOf(d)] else []
  {
    assert (log + [d])[..|log|] == log;
  }

  /** The queue before anything of the log was dispatched. */
  datatype Before = Before(tasks: seq<FetchTask>, removed: seq<FileInfo>, sends: nat)

  /** The state is what carrying out the log makes of it. */
  predicate CarriedBy(room: nat -> bool, b: Before, tasks: seq<FetchTask>, removed: seq<FileInfo>, sends: nat, log: seq<Dispatch>)
  {
    && tasks == b.tasks + Accepted(room, b.sends, log)
    && removed == b.removed + Removed(log)
    && sends == b.sends + Sends(log)
  }

  lemma {:induction false} CarryOn(room: nat -> bool, b: Before, tasks: seq<FetchTask>, removed: seq<FileInfo>, sends: nat,
                log: seq<Dispatch>, d: Dispatch)
    requires CarriedBy(room, b, tasks, removed, sends, log)
    ensures CarriedBy(room, b, tasks + (if !d.DoRemove? && room(sends) then [TaskOf(d)] else []),
                      removed + (if d.DoRemove? then [d.leaf] else []),
                      sends + (if d.DoRemove? then 0 else 1), log + [d])
  {
    LogSnoc(room, b.sends, log, d);
    Assoc(b.tasks, Accepted(room, b.sends, log), if !d.DoRemove? && room(sends) then [TaskOf(d)] else []);
    Assoc(b.removed, Removed(log), if d.DoRemove? then [d.leaf] else []);
  }

  lemma {:induction false} NothingCarried(room: nat -> bool, b: Before)
    ensures CarriedBy(room, b, b.tasks, b.removed, b.sends, [])
  {
    assert b.tasks + [] == b.tasks && b.removed + [] == b.removed;
  }

  class PeerQueue {
    const room: nat -> bool     // the puller drains the queue concurrently: does the k-th send find a free slot?
    var sends: nat
    var inflight: set<Path>
    var tasks: seq<FetchTask>   // accepted by the puller queue
    var removed: seq<FileInfo>  // tombstones applied directly
    ghost var log: seq<Dispatch>

    constructor (inflight: set<Path>, room: nat -> bool)
      ensures this.inflight == inflight && this.room == room && tasks == [] && removed == [] && log == [] && sends == 0
    {
      this.inflight, this.room, tasks, removed, log, sends := inflight, room, [], [], [], 0;
    }

    method EnqueueFetch(leaf: FileInfo)
      modifies this`inflight, this`tasks, this`sends
      ensures if leaf.path in old(inflight) then inflight == old(inflight) && tasks == old(tasks) && sends == old(sends)
              else && sends == old(sends) + 1
                   && inflight == old(inflight) + (if room(old(sends)) then {leaf.path} else {})
                   && tasks == old(tasks) + if room(old(sends)) then [FetchTask(leaf, false, None, false)] else []
    {
      if leaf.path in inflight { return; }
      if room(sends) {
        tasks := tasks + [FetchTask(leaf, false, None, false)];
        inflight := inflight + {leaf.path};
      }
      sends := sends + 1;
    }

    /** One slot for both halves: a full queue drops both, and nothing is removed. */
    method EnqueueRename(newCreate: FileInfo, oldTomb: FileInfo)
      modifies this`inflight, this`tasks, this`sends
      ensures if newCreate.path in old(inflight) || oldTomb.path in old(inflight)
              then inflight == old(inflight) && tasks == old(tasks) && sends == old(sends)
              else && sends == old(sends) + 1
                   && inflight == old(inflight) + (if room(old(sends)) then {newCreate.path, oldTomb.path} else {})
                   && tasks == old(tasks) + if room(old(sends)) then [FetchTask(oldTomb, false, Some(newCreate), false)] else []
    {
      if newCreate.path in inflight || oldTomb.path in inflight { return; }
      if room(sends) {
        tasks := tasks + [FetchTask(oldTomb, false, Some(newCreate), false)];
        inflight := inflight + {newCreate.path, oldTomb.path};
      }
      sends := sends + 1;
    }

    ghost predicate Carried(b: Before)
      reads this
    {
      CarriedBy(room, b, tasks, removed, sends, log)
    }

    ghost predicate Untouched(was: set<Path>, cs: seq<FileInfo>, ts: seq<TombInstall>, C: set<nat>, T: set<nat>)
      reads this
    {
      && (forall c | 0 <= c < |cs| && c !in C :: cs[c].path in inflight <==> cs[c].path in was)
      && (forall t | 0 <= t < |ts| && t !in T :: ts[t].leaf.path in inflight <==> ts[t].leaf.path in was)
    }

    /** C and T are the creates and tombstones dispatched so far; was is the in-flight set at the start. */
    ghost predicate Progress(was: set<Path>, cs: seq<FileInfo>, ts: seq<TombInstall>, C: set<nat>, T: set<nat>)
      reads this
    {
      && Logged(log, cs, ts, C, T) && SoundLog(log, cs, ts) && Untouched(was, cs, ts, C, T)
      && (forall c | c in C :: c < |cs| && cs[c].path !in was)
      && (forall t | t in T :: t < |ts| && ts[t].leaf.path !in was)
    }

    /** The first tombstone that is unpaired, off flight and still holds the create's bytes, or |ts|. */
    method FindPartner(create: FileInfo, ts: seq<TombInstall>, tombPaired: seq<bool>) returns (ti: nat)
      requires |tombPaired| == |ts|
      ensures ti <= |ts|
      ensures ti < |ts| ==> !tombPaired[ti] && ts[ti].hasOld && ts[ti].oldHash == create.contentHash
                            && ts[ti].leaf.path !in inflight
      ensures forall j | 0 <= j < ti :: tombPaired[j] || ts[j].leaf.path in inflight || !Reusable(create, ts[j])
    {
      ti := 0;
      while ti < |ts|
        invariant ti <= |ts|
        invariant forall j | 0 <= j < ti :: tombPaired[j] || ts[j].leaf.path in inflight || !Reusable(create, ts[j])
      {
        if !tombPaired[ti] && ts[ti].hasOld && ts[ti].leaf.path !in inflight {
          if ts[ti].oldHash == create.contentHash { return; }
        }
        ti := ti + 1;
      }
    }

    /** The pair loop has met the first n creates. */
    ghost predicate Met(was: set<Path>, cs: seq<FileInfo>, ts: seq<TombInstall>, createDone: seq<bool>, tombPaired: seq<bool>,
                        C: set<nat>, T: set<nat>, n: nat, b: Before)
      requires n <= |cs|
      reads this
    {
      && Carried(b) && |tombPaired| == |ts| && Progress(was, cs, ts, C, T)
      && Marks(was, cs, createDone, tombPaired, C, T, n)
      && NonePairable(was, cs, ts, C, T, n) && RenamesOnly(log)
    }

    method PairOne(cs: seq<FileInfo>, ts: seq<TombInstall>, ci: nat, createDone0: seq<bool>, tombPaired0: seq<bool>,
                   ghost was: set<Path>, ghost C0: set<nat>, ghost T0: set<nat>, ghost b: Before)
      returns (createDone: seq<bool>, tombPaired: seq<bool>, ghost C: set<nat>, ghost T: set<nat>)
      requires Separate(cs, ts) && ci < |cs| && Met(was, cs, ts, createDone0, tombPaired0, C0, T0, ci, b)
      modifies this`inflight, this`tasks, this`sends, this`log
      ensures Met(was, cs, ts, createDone, tombPaired, C, T, ci + 1, b)
    {
      createDone, tombPaired, C, T := createDone0, tombPaired0, C0, T0;
      if cs[ci].path in inflight {
        MarkAlone(was, cs, createDone, tombPaired, C, T, ci);
        NoPartner(was, cs, ts, C, T, ci);
        createDone := createDone[ci := true];
        return;
      }
      var ti := FindPartner(cs[ci], ts, tombPaired);
      if ti == |ts| {
        MarkAlone(was, cs, createDone, tombPaired, C, T, ci);
        NoPartner(was, cs, ts, C, T, ci);
      } else {
        MarkPair(was, cs, createDone, tombPaired, C, T, ci, ti);
        PairTaken(was, cs, ts, C, T, ci, ti);
        Couple(was, cs, ts, C, T, ci, ti, b);
        tombPaired := tombPaired[ti := true];
        createDone := createDone[ci := true];
        C, T := C + {ci}, T + {ti};
      }
    }

    method PairLoop(cs: seq<FileInfo>, ts: seq<TombInstall>, ghost b: Before)
      returns (createDone: seq<bool>, tombPaired: seq<bool>, ghost C: set<nat>, ghost T: set<nat>)
      requires Separate(cs, ts) && log == [] && Carried(b)
      modifies this`inflight, this`tasks, this`sends, this`log
      ensures Met(old(inflight), cs, ts, createDone, tombPaired, C, T, |cs|, b)
    {
      ghost var was := inflight;
      C, T := {}, {};
      tombPaired, createDone := seq(|ts|, _ => false), seq(|cs|, _ => false);
      for ci := 0 to |cs|
        invariant Met(was, cs, ts, createDone, tombPaired, C, T, ci, b)
      {
        createDone, tombPaired, C, T := PairOne(cs, ts, ci, createDone, tombPaired, was, C, T, b);
      }
    }

    method Couple(ghost was: set<Path>, cs: seq<FileInfo>, ts: seq<TombInstall>, ghost C: set<nat>, ghost T: set<nat>,
                  ci: nat, ti: nat, ghost b: Before)
      requires Separate(cs, ts) && ci < |cs| && ti < |ts| && Progress(was, cs, ts, C, T) && ci !in C && ti !in T
      requires cs[ci].path !in inflight && ts[ti].leaf.path !in inflight
      requires ts[ti].hasOld && ts[ti].oldHash == cs[ci].contentHash && Carried(b)
      modifies this`inflight, this`tasks, this`sends, this`log
      ensures Carried(b) && Progress(was, cs, ts, C + {ci}, T + {ti})
      ensures log == old(log) + [DoRename(cs[ci], ts[ti].leaf)]
    {
      LogRename(log, cs, ts, C, T, ci, ti);
      CarryOn(room, b, tasks, removed, sends, log, DoRename(cs[ci], ts[ti].leaf));
      EnqueueRename(cs[ci], ts[ti].leaf);
      log := log + [DoRename(cs[ci], ts[ti].leaf)];
      assert ts[ti] in ts;
    }

    method FetchOne(ghost was: set<Path>, cs: seq<FileInfo>, ts: seq<TombInstall>, ghost C: set<nat>, ghost T: set<nat>,
                    ghost C0: set<nat>, ci: nat, ghost b: Before)
      requires Separate(cs, ts) && ci < |cs| && Progress(was, cs, ts, C, T) && ci !in C && cs[ci].path !in was && Carried(b)
      requires ci !in C0 && AloneFrom(log, was, cs, ts, C0, T)
      modifies this`inflight, this`tasks, this`sends, this`log
      ensures Carried(b) && Progress(was, cs, ts, C + {ci}, T) && log == old(log) + [DoFetch(cs[ci])]
      ensures AloneFrom(log, was, cs, ts, C0, T)
    {
      FetchedAlone(log, was, cs, ts, C0, T, ci);
      LogFetch(log, cs, ts, C, T, ci);
      CarryOn(room, b, tasks, removed, sends, log, DoFetch(cs[ci]));
      EnqueueFetch(cs[ci]);
      log := log + [DoFetch(cs[ci])];
    }

    method RemoveOne(ghost was: set<Path>, cs: seq<FileInfo>, ts: seq<TombInstall>, ghost C: set<nat>, ghost T: set<nat>,
                     ghost C0: set<nat>, ghost T0: set<nat>, ti: nat, ghost b: Before)
      requires Separate(cs, ts) && ti < |ts| && Progress(was, cs, ts, C, T) && ti !in T && Carried(b)
      requires ts[ti].leaf.path !in was && ti !in T0 && AloneFrom(log, was, cs, ts, C0, T0)
      modifies this`removed, this`log
      ensures Carried(b) && Progress(was, cs, ts, C, T + {ti}) && log == old(log) + [DoRemove(ts[ti].leaf)]
      ensures AloneFrom(log, was, cs, ts, C0, T0)
    {
      RemovedAlone(log, was, cs, ts, C0, T0, ti);
      LogRemove(log, cs, ts, C, T, ti);
      CarryOn(room, b, tasks, removed, sends, log, DoRemove(ts[ti].leaf));
      removed := removed + [ts[ti].leaf];
      log := log + [DoRemove(ts[ti].leaf)];
    }

    method FetchLoop(cs: seq<FileInfo>, ts: seq<TombInstall>, createDone: seq<bool>,
                     ghost was: set<Path>, ghost C0: set<nat>, ghost T: set<nat>, ghost b: Before)
      returns (ghost C: set<nat>)
      requires AloneFrom(log, was, cs, ts, C0, T)
      requires Separate(cs, ts) && Progress(was, cs, ts, C0, T) && |createDone| == |cs|
      requires Carried(b) && forall c | 0 <= c < |cs| :: createDone[c] <==> c in C0 || cs[c].path in was
      modifies this`inflight, this`tasks, this`sends, this`log
      ensures Carried(b) && Progress(was, cs, ts, C, T) && AloneFrom(log, was, cs, ts, C0, T)
      ensures forall c | 0 <= c < |cs| :: c in C <==> cs[c].path !in was
    {
      C := C0;
      for ci := 0 to |cs|
        invariant Carried(b) && Progress(was, cs, ts, C, T) && AloneFrom(log, was, cs, ts, C0, T)
        invariant forall c | 0 <= c < ci :: c in C <==> cs[c].path !in was
        invariant forall c | ci <= c < |cs| :: c in C <==> c in C0
      {
        if !createDone[ci] {
          FetchOne(was, cs, ts, C, T, C0, ci, b);
          C := C + {ci};
        }
      }
    }

    method RemoveLoop(cs: seq<FileInfo>, ts: seq<TombInstall>, tombPaired: seq<bool>,
                      ghost was: set<Path>, ghost C0: set<nat>, ghost C: set<nat>, ghost T0: set<nat>, ghost b: Before)
      returns (ghost T: set<nat>)
      requires AloneFrom(log, was, cs, ts, C0, T0)
      requires Separate(cs, ts) && Progress(was, cs, ts, C, T0) && |tombPaired| == |ts|
      requires Carried(b) && forall t | 0 <= t < |ts| :: tombPaired[t] <==> t in T0
      modifies this`removed, this`log
      ensures Carried(b) && Progress(was, cs, ts, C, T) && AloneFrom(log, was, cs, ts, C0, T0)
      ensures forall t | 0 <= t < |ts| :: t in T <==> ts[t].leaf.path !in was
    {
      T := T0;
      for ti := 0 to |ts|
        invariant Carried(b) && Progress(was, cs, ts, C, T) && AloneFrom(log, was, cs, ts, C0, T0)
        invariant forall t | 0 <= t < ti :: t in T <==> ts[t].leaf.path !in was
        invariant forall t | ti <= t < |ts| :: t in T <==> t in T0
      {
        if !tombPaired[ti] && ts[ti].leaf.path !in inflight {
          RemoveOne(was, cs, ts, C, T, C0, T0, ti, b);
          T := T + {ti};
        }
      }
    }

    /** The three dispatch loops. A path that was in flight is left to its running task; every other create and
        tombstone is dispatched exactly once, alone or in one pair of equal content. What is queued is exactly what
        was dispatched and found room, in order; only tombstones dispatched alone are removed here, so a pair,
        queued or dropped, removes nothing. And no pair is missed: a create is fetched alone only if no tombstone
        removed alone held its bytes. */
    method DispatchAll(cs: seq<FileInfo>, ts: seq<TombInstall>)
      requires Separate(cs, ts) && log == []
      modifies this
      ensures forall c | 0 <= c < |cs| :: Mentions(log, cs[c].path) == if cs[c].path in old(inflight) then 0 else 1
      ensures forall t | 0 <= t < |ts| :: Mentions(log, ts[t].leaf.path) == if ts[t].leaf.path in old(inflight) then 0 else 1
      ensures SoundLog(log, cs, ts) && PairedUp(log, ts)
      ensures Carried(Before(old(tasks), old(removed), old(sends)))
    {
      ghost var was, b := inflight, Before(tasks, removed, sends);
      NothingCarried(room, b);
      var createDone, tombPaired, C0, T0 := PairLoop(cs, ts, b);
      NoneAlone(log, was, cs, ts, C0, T0);
      ghost var C := FetchLoop(cs, ts, createDone, was, C0, T0, b);
      ghost var T := RemoveLoop(cs, ts, tombPaired, was, C0, C, T0, b);
      NoMissedPair(log, was, cs, ts, C0, T0);
    }

    /** execute, for a conflict verdict: the winner's path is buried, or queued if there is room and nothing is in
        flight for it, or left alone; no other path is touched. */
    method ExecuteConflict(files: Record, p: Plan, tooLong: bool)
      requires p.KeepBoth?
      modifies this`inflight, this`tasks, this`sends, this`removed
      ensures var a := ActionFor(files, p, tooLong);
              var queued := a.Enqueue? && a.task.leaf.path !in old(inflight) && room(old(sends));
              && removed == old(removed) + (if a.Remove? then [a.tomb] else [])
              && tasks == old(tasks) + (if queued then [a.task] else [])
              && inflight == old(inflight) + (if queued then {p.winner.path} else {})
    {
      match ActionFor(files, p, tooLong)
      case Idle =>
      case Remove(t) => removed := removed + [t];
      case Enqueue(task) =>
        if task.leaf.path !in inflight {
          if room(sends) {
            tasks := tasks + [task];
            inflight := inflight + {task.leaf.path};
          }
          sends := sends + 1;
        }
    }

    /** First loop: bucket the creates and tombstones of the diff; conflicts are executed on the spot. */
    method Bucket(N: Naming, files: Record, entries: seq<PathEntry>) returns (cs: seq<FileInfo>, ts: seq<TombInstall>)
      requires DistinctEntries(entries)
      modifies this`inflight, this`tasks, this`sends, this`removed
      ensures cs == Creates(N, entries) && ts == Tombs(N, entries)
      ensures forall i | 0 <= i < |entries| && Verdict(N, entries[i]).Install? ::
                entries[i].path in inflight <==> entries[i].path in old(inflight)
    {
      cs, ts := [], [];
      for i := 0 to |entries|
        invariant cs == Creates(N, entries[..i]) && ts == Tombs(N, entries[..i])
        invariant forall k | 0 <= k < |entries| && Verdict(N, entries[k]).Install? ::
                    entries[k].path in inflight <==> entries[k].path in old(inflight)
      {
        assert entries[..i + 1][..i] == entries[..i];
        VerdictPath(N, entries[i]);
        var p := Verdict(N, entries[i]);
        if p.Install? && !p.leaf.deleted {
          cs := cs + [p.leaf];
        } else if p.Install? {
          ts := ts + [TombOf(entries[i], p.leaf)];
        } else if p.KeepBoth? {
          var tooLong: bool := *;
          ExecuteConflict(files, p, tooLong);
        }
      }
      assert entries[..|entries|] == entries;
    }

    /** One reconcile over the entries of a diff: every create or tombstone verdict whose path was not in flight
        is dispatched exactly once, and nothing else is; no rename is missed. */
    method ReconcileEntries(N: Naming, files: Record, entries: seq<PathEntry>)
      requires DistinctEntries(entries) && log == []
      modifies this
      ensures forall p :: Mentions(log, p) == if Installs(N, entries, p) && p !in old(inflight) then 1 else 0
      ensures SoundLog(log, Creates(N, entries), Tombs(N, entries)) && PairedUp(log, Tombs(N, entries))
    {
      var cs, ts := Bucket(N, files, entries);
      BucketPaths(N, entries);
      DispatchAll(cs, ts);
      forall p ensures Mentions(log, p) == if Installs(N, entries, p) && p !in old(inflight) then 1 else 0 {
        if Installs(N, entries, p) {
          var i :| 0 <= i < |entries| && entries[i].path == p && Verdict(N, entries[i]).Install?;
          VerdictPath(N, entries[i]);
          BucketComplete(N, entries, i);
        } else {
          BucketSound(N, entries, p);
          Unmentioned(log, cs, ts, p);
        }
      }
    }
  }

  /** Some entry at p has a create or tombstone verdict. */
  ghost predicate Installs(N: Naming, es: seq<PathEntry>, p: Path)
  {
    exists i | 0 <= i < |es| :: es[i].path == p && Verdict(N, es[i]).Install?
  }

  /** Nothing else gets into a bucket. */
  lemma {:induction false} BucketSound(N: Naming, es: seq<PathEntry>, p: Path)
    requires DistinctEntries(es) && !Installs(N, es, p)
    ensures (forall c | c in Creates(N, es) :: c.path != p) && (forall t | t in Tombs(N, es) :: t.leaf.path != p)
  {
    if es != [] {
      var init, e := es[..|es| - 1], es[|es| - 1];
      forall i | 0 <= i < |init| ensures init[i] == es[i] {}
      BucketSound(N, init, p);
      VerdictPath(N, e);
      assert es[|es| - 1].path == e.path;
    }
  }

  /** Every install verdict is in its bucket. */
  lemma {:induction false} BucketComplete(N: Naming, es: seq<PathEntry>, i: nat)
    requires i < |es| && Verdict(N, es[i]).Install?
    ensures var f := Verdict(N, es[i]).leaf;
            if f.deleted then TombOf(es[i], f) in Tombs(N, es) else f in Creates(N, es)
  {
    if i < |es| - 1 {
      var init := es[..|es| - 1];
      assert init[i] == es[i];
      BucketComplete(N, init, i);
    }
  }

  /** A bucketed tombstone comes from an entry at its path, and knows whether that entry's local file is a live regular
      one, and of which content. */
  lemma {:induction false} TombKnowsEntry(N: Naming, es: seq<PathEntry>, t: TombInstall)
    requires DistinctEntries(es) && t in Tombs(N, es)
    ensures exists i | 0 <= i < |es| ::
              && es[i].path == t.leaf.path
              && (t.hasOld <==> es[i].local.Some? && !es[i].local.value.deleted && es[i].local.value.ftype == TypeFile)
              && (t.hasOld ==> t.oldHash == es[i].local.value.contentHash)
  {
    if es != [] {
      var init, e := es[..|es| - 1], es[|es| - 1];
      forall i | 0 <= i < |init| ensures init[i] == es[i] {}
      VerdictPath(N, e);
      if t in Tombs(N, init) { TombKnowsEntry(N, init, t); } else { assert es[|es| - 1].path == t.leaf.path; }
    }
  }
}
