/** The resolver (internal/reconcile/apply.go) and what one exchange of a leaf pair achieves. */
module Resolve {
  import opened Basics
  import opened Paths
  import opened VersionVectors
  import opened FileInfos
  import opened Conflict

  datatype Plan =
    | NoOp
    | Install(leaf: FileInfo)
    | KeepBoth(winner: FileInfo, loser: Option<FileInfo>)

  function ConflictPlan(N: Naming, local: FileInfo, remote: FileInfo): (p: Plan)
  {
    var w, l := Winner(local, remote), Loser(local, remote);
    var win := w.(path := local.path);
    if l.deleted then KeepBoth(win, None)
    else match ConflictName(N, l, LoserAuthor(l, w))
      case None => NoOp
      case Some(name) => KeepBoth(win, Some(l.(path := name)))
  }

  predicate SameContent(a: FileInfo, b: FileInfo) { a.contentHash == b.contentHash && a.deleted == b.deleted }

  function ResolvePair(N: Naming, local: FileInfo, remote: FileInfo): (p: Plan)
  {
    match Order(local.version, remote.version)
    case Equal => if SameContent(local, remote) then NoOp else ConflictPlan(N, local, remote)
    case Dominates => NoOp
    case DominatedBy => Install(remote.(version := Merged(local.version, remote.version)))
    case Concurrent =>
      if SameContent(local, remote) then Install(local.(version := Merged(local.version, remote.version)))
      else ConflictPlan(N, local, remote)
  }

  /** The total decision procedure; None is an absent leaf. */
  function Decide(N: Naming, local: Option<FileInfo>, remote: Option<FileInfo>): (p: Plan)
  {
    if remote.None? then NoOp
    else if local.None? then (if remote.value.deleted then NoOp else Install(remote.value))
    else ResolvePair(N, local.value, remote.value)
  }

  // ---- one exchange ----

  /** The leaf at the path once the plan is carried out. */
  function After(local: Option<FileInfo>, p: Plan): (r: Option<FileInfo>)
  {
    match p
    case NoOp => local
    case Install(f) => Some(f)
    case KeepBoth(w, _) => Some(w)
  }

  function CopyOf(p: Plan): (c: Option<FileInfo>) { if p.KeepBoth? then p.loser else None }

  /** Tombstones carry the zero hash and live leaves do not; vectors are canonical. */
  predicate Sane(f: FileInfo) { Canonical(f.version) && (f.deleted <==> f.contentHash == ZeroDigest) }

  predicate SaneOpt(f: Option<FileInfo>) { f.Some? ==> Sane(f.value) }

  /** Agreement on content, deleted flag and vector (the mode byte may differ). */
  predicate Agree(a: FileInfo, b: FileInfo) { SameContent(a, b) && a.version == b.version }

  /** What a user sees: the live content and its vector. */
  function LiveView(f: Option<FileInfo>): (v: Option<(Digest, VV)>)
  {
    if f.Some? && !f.value.deleted then Some((f.value.contentHash, f.value.version)) else None
  }

  /** The pair conflicts: versions that neither supersedes, with different content. */
  predicate InConflict(a: FileInfo, b: FileInfo)
  {
    Order(a.version, b.version) in {Equal, Concurrent} && !SameContent(a, b)
  }

  /** The one error branch: the losing copy's name is not canonical. */
  predicate NamingFails(N: Naming, a: FileInfo, b: FileInfo)
  {
    InConflict(a, b) && !Loser(a, b).deleted
    && ConflictName(N, Loser(a, b), LoserAuthor(Loser(a, b), Winner(a, b))).None?
  }

  lemma {:induction false} ConflictRivals(a: FileInfo, b: FileInfo)
    requires Sane(a) && Sane(b) && InConflict(a, b)
    ensures Rivals(a, b) && Rivals(b, a)
    ensures Winner(a, b) == Winner(b, a) && Loser(a, b) == Loser(b, a)
  {
    AWinsIsBeats(a, b);
  }

  /** Both peers mint one verdict from a conflicting pair. */
  lemma {:induction false} ConflictSymmetric(N: Naming, a: FileInfo, b: FileInfo)
    requires Sane(a) && Sane(b) && a.path == b.path && InConflict(a, b)
    ensures ResolvePair(N, a, b) == ResolvePair(N, b, a) == ConflictPlan(N, a, b)
    ensures NamingFails(N, a, b) <==> ResolvePair(N, a, b) == NoOp
    ensures !NamingFails(N, a, b) ==> ResolvePair(N, a, b).KeepBoth? && ResolvePair(N, a, b).winner == Winner(a, b)
  {
    ConflictRivals(a, b);
    OrderPointwise(a.version, b.version);
  }

  lemma {:induction false} AgreeIsNoOp(N: Naming, a: FileInfo, b: FileInfo)
    requires Sane(a) && Sane(b) && Agree(a, b)
    ensures ResolvePair(N, a, b) == NoOp
  {
    LeqReflexive(a.version);
  }

  lemma {:induction false} MergedFacts(v: VV, w: VV)
    requires Canonical(v) && Canonical(w)
    ensures Canonical(Merged(v, w)) && Merged(v, w) == Merged(w, v)
    ensures Leq(v, Merged(v, w)) && Leq(v, v)
    ensures Leq(v, w) ==> Merged(v, w) == w
    ensures Leq(w, v) ==> Merged(v, w) == v
    ensures Leq(v, w) && Leq(w, v) ==> v == w
  {
    MergedIsLub(v, w);
    MergedCommutes(v, w);
    LeqReflexive(v);
    if Leq(v, w) { MergedAbsorbs(v, w); }
    if Leq(w, v) { MergedAbsorbs(w, v); }
    if Leq(v, w) && Leq(w, v) { LeqAntisymmetric(v, w); }
  }

  lemma {:induction false} MergedByOrder(v: VV, w: VV)
    requires Canonical(v) && Canonical(w)
    ensures Canonical(Merged(v, w)) && Leq(v, Merged(v, w))
    ensures Order(v, w) in {Equal, Dominates} ==> Merged(v, w) == v
    ensures Order(v, w) == DominatedBy ==> Merged(v, w) == w
  {
    MergedFacts(v, w);
  }

  lemma {:induction false} PlanMovesUp(N: Naming, a: FileInfo, b: FileInfo)
    requires Sane(a) && Sane(b) && !InConflict(a, b)
    ensures var x := After(Some(a), ResolvePair(N, a, b)).value;
            && Sane(x) && Leq(a.version, x.version)
            && x.version == Merged(a.version, b.version)
            && SameContent(x, if Order(a.version, b.version) == DominatedBy then b else a)
  {
    MergedByOrder(a.version, b.version);
  }

  lemma {:induction false} PairNoConflict(N: Naming, a: FileInfo, b: FileInfo)
    requires Sane(a) && Sane(b) && !InConflict(a, b)
    ensures var x, y := After(Some(a), ResolvePair(N, a, b)).value, After(Some(b), ResolvePair(N, b, a)).value;
            && Agree(x, y) && Sane(x) && Sane(y)
            && (SameContent(a, x) || Order(a.version, b.version) == DominatedBy)
            && Leq(a.version, x.version)
  {
    PlanMovesUp(N, a, b);
    PlanMovesUp(N, b, a);
    MergedCommutes(a.version, b.version);
  }

  lemma {:induction false} ConflictAgrees(N: Naming, a: FileInfo, b: FileInfo)
    requires Sane(a) && Sane(b) && a.path == b.path && InConflict(a, b)
    ensures var x, y := After(Some(a), ResolvePair(N, a, b)).value, After(Some(b), ResolvePair(N, b, a)).value;
            Sane(x) && Sane(y) && (Agree(x, y) <==> !NamingFails(N, a, b))
  {
    ConflictSymmetric(N, a, b);
  }

  lemma {:induction false} PairAgrees(N: Naming, a: FileInfo, b: FileInfo)
    requires Sane(a) && Sane(b) && a.path == b.path
    ensures var x, y := After(Some(a), ResolvePair(N, a, b)).value, After(Some(b), ResolvePair(N, b, a)).value;
            Sane(x) && Sane(y) && (Agree(x, y) <==> !NamingFails(N, a, b))
  {
    if InConflict(a, b) { ConflictAgrees(N, a, b); } else { PairNoConflict(N, a, b); }
  }

  /** Two leaves: after one exchange the peers agree and are at rest, exactly when the copy could be named. */
  lemma {:induction false} PairConverges(N: Naming, a: FileInfo, b: FileInfo)
    requires Sane(a) && Sane(b) && a.path == b.path
    ensures var x, y := After(Some(a), ResolvePair(N, a, b)).value, After(Some(b), ResolvePair(N, b, a)).value;
            && Sane(x) && Sane(y)
            && (Agree(x, y) <==> !NamingFails(N, a, b))
            && (!NamingFails(N, a, b) ==> ResolvePair(N, x, y) == NoOp && ResolvePair(N, y, x) == NoOp)
  {
    PairAgrees(N, a, b);
    var x, y := After(Some(a), ResolvePair(N, a, b)).value, After(Some(b), ResolvePair(N, b, a)).value;
    if Agree(x, y) {
      AgreeIsNoOp(N, x, y);
      AgreeIsNoOp(N, y, x);
    }
  }

  /** The same with absent leaves allowed: the live views agree and a second exchange does nothing. */
  lemma {:induction false} ExchangeConverges(N: Naming, a: Option<FileInfo>, b: Option<FileInfo>)
    requires SaneOpt(a) && SaneOpt(b) && (a.Some? && b.Some? ==> a.value.path == b.value.path)
    ensures var ok := !(a.Some? && b.Some? && NamingFails(N, a.value, b.value));
            var x, y := After(a, Decide(N, a, b)), After(b, Decide(N, b, a));
            && (ok ==> LiveView(x) == LiveView(y) && Decide(N, x, y) == NoOp && Decide(N, y, x) == NoOp)
            && (!ok ==> x == a && y == b)
  {
    if a.Some? && b.Some? {
      PairConverges(N, a.value, b.value);
      if NamingFails(N, a.value, b.value) { ConflictSymmetric(N, a.value, b.value); ConflictRivals(a.value, b.value); }
    } else {
      if a.Some? { AgreeIsNoOp(N, a.value, a.value); }
      if b.Some? { AgreeIsNoOp(N, b.value, b.value); }
    }
  }

  /** A newer leaf is taken whole, a new one as it comes; between concurrent versions of one content each side keeps its
      own leaf, mode and mtime included, under the merged vector. */
  lemma {:induction false} WhatIsInstalled(N: Naming, a: FileInfo, b: FileInfo)
    requires Sane(a) && Sane(b)
    ensures Order(a.version, b.version) == DominatedBy ==> ResolvePair(N, a, b) == Install(b)
    ensures Order(a.version, b.version) == Concurrent && SameContent(a, b) ==>
              ResolvePair(N, a, b).Install? && ResolvePair(N, a, b).leaf.(version := a.version) == a
    ensures Decide(N, None, Some(b)) == if b.deleted then NoOp else Install(b)
  {
    MergedByOrder(a.version, b.version);
  }

  /** A path never moves to a causally older vector. */
  lemma {:induction false} NeverOlder(N: Naming, a: FileInfo, b: FileInfo)
    requires Sane(a) && Sane(b) && a.path == b.path
    ensures Order(After(Some(a), ResolvePair(N, a, b)).value.version, a.version) != DominatedBy
  {
    if InConflict(a, b) {
      ConflictSymmetric(N, a, b);
      LeqReflexive(a.version);
      OrderPointwise(a.version, b.version);
    } else {
      PairNoConflict(N, a, b);
    }
  }

  /** No live content disappears in an exchange unless its vector was strictly dominated: it stays at the path
      on both sides, or both sides hold one identical conflict copy of it. */
  lemma {:induction false} NothingLost(N: Naming, a: FileInfo, b: FileInfo)
    requires Sane(a) && Sane(b) && a.path == b.path && !a.deleted && Order(a.version, b.version) != DominatedBy
    ensures var pa, pb := ResolvePair(N, a, b), ResolvePair(N, b, a);
            || (NamingFails(N, a, b) && pa == NoOp && pb == NoOp)
            || (After(Some(a), pa).value.contentHash == a.contentHash
                && After(Some(b), pb).value.contentHash == a.contentHash)
            || (CopyOf(pa) == CopyOf(pb) && CopyOf(pa).Some? && CopyOf(pa).value == a.(path := CopyOf(pa).value.path))
  {
    if InConflict(a, b) {
      ConflictSymmetric(N, a, b);
      ConflictRivals(a, b);
    } else {
      PairNoConflict(N, a, b);
    }
  }

  // ---- whole records ----

  function Find(m: map<Path, FileInfo>, p: Path): (f: Option<FileInfo>) { if p in m then Some(m[p]) else None }

  ghost predicate SaneRecord(m: map<Path, FileInfo>)
  {
    forall p | p in m :: Sane(m[p]) && m[p].path == p
  }

  /** No path gives either peer anything to do. */
  ghost predicate AtRest(N: Naming, A: map<Path, FileInfo>, B: map<Path, FileInfo>)
  {
    forall p :: Decide(N, Find(A, p), Find(B, p)) == NoOp && Decide(N, Find(B, p), Find(A, p)) == NoOp
  }

  /** Same (content, deleted, vector) at a path, or a tombstone only one peer knows, or an unnameable conflict. */
  ghost predicate Settled(N: Naming, a: Option<FileInfo>, b: Option<FileInfo>)
  {
    match (a, b)
    case (None, None) => true
    case (Some(f), None) => f.deleted
    case (None, Some(g)) => g.deleted
    case (Some(f), Some(g)) => Agree(f, g) || NamingFails(N, f, g)
  }

  /** Two records are at rest exactly when every path is settled: rest is convergence. */
  lemma {:induction false} RestIsConvergence(N: Naming, A: map<Path, FileInfo>, B: map<Path, FileInfo>)
    requires SaneRecord(A) && SaneRecord(B)
    ensures AtRest(N, A, B) <==> forall p :: Settled(N, Find(A, p), Find(B, p))
  {
    forall p
      ensures (Decide(N, Find(A, p), Find(B, p)) == NoOp && Decide(N, Find(B, p), Find(A, p)) == NoOp)
              <==> Settled(N, Find(A, p), Find(B, p))
    {
      SettledIsNoOp(N, Find(A, p), Find(B, p));
    }
  }

  lemma {:induction false} SettledIsNoOp(N: Naming, a: Option<FileInfo>, b: Option<FileInfo>)
    requires SaneOpt(a) && SaneOpt(b) && (a.Some? && b.Some? ==> a.value.path == b.value.path)
    ensures (Decide(N, a, b) == NoOp && Decide(N, b, a) == NoOp) <==> Settled(N, a, b)
  {
    if a.Some? && b.Some? {
      var f, g := a.value, b.value;
      OrderPointwise(f.version, g.version);
      OrderPointwise(g.version, f.version);
      if InConflict(f, g) {
        ConflictSymmetric(N, f, g);
      } else if Agree(f, g) {
        AgreeIsNoOp(N, f, g);
        AgreeIsNoOp(N, g, f);
      }
    }
  }
}
