/** One round of two peers over whole records (reconcileWithPeer and execute of internal/reconcile/engine.go): each side
carries out every verdict it has against the other's record, all its I/O succeeds, and the conflict copies made reach
both sides. What such a round loses, and when it leaves nothing to do. */
module Rounds {
  import opened Basics
  import opened Paths
  import opened VersionVectors
  import opened FileInfos
  import opened Trees
  import opened TreeBuild
  import opened Conflict
  import opened Resolve
  import opened Tombstones
  import opened Apply
  import opened RecordDiff

  // ---- one path ----

  /** What the engine can lay down: a deletion, or a regular file. */
  predicate Regular(f: FileInfo) { f.deleted || f.ftype == TypeFile }

  /** ActionFor, given whether a live regular file of the losing content is on record. */
  function ActionWhen(holds: bool, p: Plan): (a: Action)
  {
    match p
    case NoOp => Idle
    case Install(f) => if f.deleted then Remove(f) else Enqueue(FetchTask(f, false, None, false))
    case KeepBoth(w, l) =>
      if l.Some? && holds then Enqueue(FetchTask(w, false, l, true))
      else if w.deleted then Remove(w)
      else Enqueue(FetchTask(w, false, None, false))
  }

  /** The record at the path once the action is done: a link is refused, and so is what its copy would come before. */
  function Done(local: Option<FileInfo>, a: Action): (r: Option<FileInfo>)
  {
    match a
    case Idle => local
    case Remove(t) => Some(t)
    case Enqueue(task) =>
      if (task.preserve.Some? && task.preserve.value.ftype != TypeFile) || !Regular(task.leaf) then local else Some(task.leaf)
  }

  /** The copy the action lays down. */
  function CopyMade(a: Action): (c: Option<FileInfo>)
  {
    if a.Enqueue? && a.task.preserve.Some? && a.task.preserve.value.ftype == TypeFile then a.task.preserve else None
  }

  function PairNext(N: Naming, holds: bool, a: Option<FileInfo>, b: Option<FileInfo>): (r: Option<FileInfo>)
  {
    Done(a, ActionWhen(holds, Decide(N, a, b)))
  }

  function PairCopy(N: Naming, holds: bool, a: Option<FileInfo>, b: Option<FileInfo>): (c: Option<FileInfo>)
  {
    CopyMade(ActionWhen(holds, Decide(N, a, b)))
  }

  /** The content a conflict at the path would copy is on record as a live regular file. */
  predicate OnRecord(N: Naming, files: Record, a: Option<FileInfo>, b: Option<FileInfo>)
  {
    var l := CopyOf(Decide(N, a, b));
    l.Some? && HasLocalContent(files, l.value.contentHash)
  }

  lemma {:induction false} ActionIsWhen(N: Naming, files: Record, a: Option<FileInfo>, b: Option<FileInfo>)
    ensures ActionFor(files, Decide(N, a, b), false) == ActionWhen(OnRecord(N, files, a, b), Decide(N, a, b))
  {
  }

  // ---- whole records ----

  /** The two records have trees, and no file of one is strictly above or below p on the other: only then the
      resolver is asked. */
  ghost predicate Asked(A: Record, B: Record, p: Path)
  {
    BuildableSet(A.Values) && BuildableSet(B.Values) && !Clashed(A, B, p)
  }

  lemma {:induction false} ClashIsMutual(A: Record, B: Record, p: Path)
    requires Clashed(A, B, p)
    ensures Clashed(B, A, p)
  {
    var q :| ClashesWith(A, B, p, q);
    assert ClashesWith(B, A, p, q);
  }

  lemma {:induction false} AskedIsMutual(A: Record, B: Record, p: Path)
    ensures Asked(A, B, p) <==> Asked(B, A, p)
  {
    if Clashed(A, B, p) { ClashIsMutual(A, B, p); }
    if Clashed(B, A, p) { ClashIsMutual(B, A, p); }
  }

  /** A's record at p after the round, copies apart. */
  ghost function Outcome(N: Naming, A: Record, B: Record, p: Path): (r: Option<FileInfo>)
  {
    if Asked(A, B, p) then Done(Find(A, p), ActionFor(A, Decide(N, Find(A, p), Find(B, p)), false)) else Find(A, p)
  }

  /** The copy A makes for the conflict at p. */
  ghost function MadeAt(N: Naming, A: Record, B: Record, p: Path): (c: Option<FileInfo>)
  {
    if Asked(A, B, p) then CopyMade(ActionFor(A, Decide(N, Find(A, p), Find(B, p)), false)) else None
  }

  ghost function Round(N: Naming, A: Record, B: Record): (r: Record)
  {
    map p | p in A.Keys + B.Keys && Outcome(N, A, B, p).Some? :: Outcome(N, A, B, p).value
  }

  /** A copy made by either side for the conflict at p. */
  ghost predicate Made(N: Naming, A: Record, B: Record, p: Path, c: FileInfo)
  {
    MadeAt(N, A, B, p) == Some(c) || MadeAt(N, B, A, p) == Some(c)
  }

  /** C holds the copies both sides make, each at its own path; of two with one path, either. */
  ghost predicate Minted(N: Naming, A: Record, B: Record, C: Record)
  {
    && (forall p, c | Made(N, A, B, p, c) :: c.path in C)
    && (forall q | q in C :: C[q].path == q && exists p :: Made(N, A, B, p, C[q]))
  }

  lemma {:induction false} OutcomeIsPair(N: Naming, A: Record, B: Record, p: Path)
    requires Asked(A, B, p)
    ensures var a, b := Find(A, p), Find(B, p);
            && Outcome(N, A, B, p) == PairNext(N, OnRecord(N, A, a, b), a, b)
            && MadeAt(N, A, B, p) == PairCopy(N, OnRecord(N, A, a, b), a, b)
  {
    ActionIsWhen(N, A, Find(A, p), Find(B, p));
  }

  lemma {:induction false} PairKeepsPath(N: Naming, holds: bool, a: Option<FileInfo>, b: Option<FileInfo>, p: Path)
    requires SaneOpt(a) && SaneOpt(b) && (a.Some? ==> a.value.path == p) && (b.Some? ==> b.value.path == p)
    ensures var r := PairNext(N, holds, a, b); SaneOpt(r) && (r.Some? ==> r.value.path == p) && (a.Some? ==> r.Some?)
    ensures a.None? && b.None? ==> PairNext(N, holds, a, b).None?
  {
    if a.Some? && b.Some? {
      if InConflict(a.value, b.value) { ConflictSymmetric(N, a.value, b.value); } else { PairNoConflict(N, a.value, b.value); }
    }
  }

  lemma {:induction false} RoundAt(N: Naming, A: Record, B: Record, p: Path)
    requires SaneRecord(A) && SaneRecord(B)
    ensures Find(Round(N, A, B), p) == Outcome(N, A, B, p)
    ensures SaneOpt(Outcome(N, A, B, p)) && (Outcome(N, A, B, p).Some? ==> Outcome(N, A, B, p).value.path == p)
    ensures p in A ==> p in Round(N, A, B)
  {
    if Asked(A, B, p) {
      OutcomeIsPair(N, A, B, p);
      PairKeepsPath(N, OnRecord(N, A, Find(A, p), Find(B, p)), Find(A, p), Find(B, p), p);
    }
  }

  lemma {:induction false} RoundKeys(N: Naming, A: Record, B: Record)
    ensures Round(N, A, B).Keys <= A.Keys + B.Keys
  {
  }

  // ---- copies ----

  /** c is the copy that the conflict of a and b calls for. */
  predicate CopyFor(N: Naming, a: FileInfo, b: FileInfo, c: FileInfo)
  {
    && InConflict(a, b) && !NamingFails(N, a, b)
    && c == Loser(a, b).(path := c.path) && Sane(c) && !c.deleted && c.ftype == TypeFile
    && ConflictName(N, Loser(a, b), LoserAuthor(Loser(a, b), Winner(a, b))) == Some(c.path)
  }

  lemma {:induction false} ConflictIsMutual(a: FileInfo, b: FileInfo)
    requires Sane(a) && Sane(b) && InConflict(a, b)
    ensures InConflict(b, a)
  {
    OrderPointwise(a.version, b.version);
    OrderPointwise(b.version, a.version);
  }

  lemma {:induction false} CopyForEither(N: Naming, a: FileInfo, b: FileInfo, c: FileInfo)
    requires Sane(a) && Sane(b) && CopyFor(N, a, b, c)
    ensures CopyFor(N, b, a, c)
  {
    ConflictRivals(a, b);
    ConflictIsMutual(a, b);
  }

  lemma {:induction false} PairCopyFacts(N: Naming, holds: bool, a: Option<FileInfo>, b: Option<FileInfo>)
    requires SaneOpt(a) && SaneOpt(b) && (a.Some? && b.Some? ==> a.value.path == b.value.path)
    requires PairCopy(N, holds, a, b).Some?
    ensures a.Some? && b.Some? && holds && CopyFor(N, a.value, b.value, PairCopy(N, holds, a, b).value)
  {
    ConflictSymmetric(N, a.value, b.value);
  }

  lemma {:induction false} MadeIsCopy(N: Naming, A: Record, B: Record, p: Path)
    requires SaneRecord(A) && SaneRecord(B) && MadeAt(N, A, B, p).Some?
    ensures p in A && p in B && Asked(A, B, p) && CopyFor(N, A[p], B[p], MadeAt(N, A, B, p).value)
  {
    OutcomeIsPair(N, A, B, p);
    PairCopyFacts(N, OnRecord(N, A, Find(A, p), Find(B, p)), Find(A, p), Find(B, p));
  }

  lemma {:induction false} CopyFacts(N: Naming, A: Record, B: Record, p: Path, c: FileInfo)
    requires SaneRecord(A) && SaneRecord(B) && Made(N, A, B, p, c)
    ensures p in A && p in B && Asked(A, B, p) && CopyFor(N, A[p], B[p], c)
  {
    if MadeAt(N, A, B, p) == Some(c) {
      MadeIsCopy(N, A, B, p);
    } else {
      MadeIsCopy(N, B, A, p);
      AskedIsMutual(A, B, p);
      CopyForEither(N, B[p], A[p], c);
    }
  }

  /** The copies A makes. */
  ghost function CopiesBy(N: Naming, A: Record, B: Record): (all: set<FileInfo>)
  {
    set p | p in A && MadeAt(N, A, B, p).Some? :: MadeAt(N, A, B, p).value
  }

  lemma {:induction false} CopiesByA(N: Naming, A: Record, B: Record, c: FileInfo)
    requires SaneRecord(A) && SaneRecord(B)
    ensures c in CopiesBy(N, A, B) <==> exists p :: MadeAt(N, A, B, p) == Some(c)
  {
    forall p | MadeAt(N, A, B, p) == Some(c) ensures p in A { MadeIsCopy(N, A, B, p); }
  }

  lemma {:induction false} CopiesOf(N: Naming, A: Record, B: Record) returns (all: set<FileInfo>)
    requires SaneRecord(A) && SaneRecord(B)
    ensures forall c :: c in all <==> exists p :: Made(N, A, B, p, c)
  {
    all := CopiesBy(N, A, B) + CopiesBy(N, B, A);
    forall c ensures c in all <==> exists p :: Made(N, A, B, p, c) {
      CopiesByA(N, A, B, c);
      CopiesByA(N, B, A, c);
      MadeByEither(N, A, B, c);
    }
  }

  lemma {:induction false} MadeByEither(N: Naming, A: Record, B: Record, c: FileInfo)
    ensures (exists p :: Made(N, A, B, p, c))
            <==> (exists p :: MadeAt(N, A, B, p) == Some(c)) || (exists p :: MadeAt(N, B, A, p) == Some(c))
  {
    if p :| MadeAt(N, A, B, p) == Some(c) { assert Made(N, A, B, p, c); }
    if p :| MadeAt(N, B, A, p) == Some(c) { assert Made(N, A, B, p, c); }
  }

  lemma {:induction false} PickByPath(all: set<FileInfo>, first: Record) returns (C: Record)
    requires forall q | q in first :: first[q].path == q && first[q] in all
    ensures forall c | c in all :: c.path in C
    ensures forall q | q in C :: C[q].path == q && C[q] in all
    ensures forall q | q in first :: q in C && C[q] == first[q]
  {
    var keys := set c: FileInfo | c in all :: c.path;
    C := map q | q in keys :: if q in first then first[q] else (var c: FileInfo :| c in all && c.path == q; c);
  }

  /** The copies there are; where two have one path, those of first. */
  lemma {:induction false} CopiesExist(N: Naming, A: Record, B: Record, first: Record) returns (C: Record)
    requires SaneRecord(A) && SaneRecord(B)
    requires forall q | q in first :: first[q].path == q && exists p :: Made(N, A, B, p, first[q])
    ensures Minted(N, A, B, C) && forall q | q in first :: q in C && C[q] == first[q]
  {
    var all := CopiesOf(N, A, B);
    C := PickByPath(all, first);
  }

  lemma {:induction false} CopiesAreSane(N: Naming, A: Record, B: Record, C: Record)
    requires SaneRecord(A) && SaneRecord(B) && Minted(N, A, B, C)
    ensures SaneRecord(C) && forall q | q in C :: !C[q].deleted && C[q].ftype == TypeFile
  {
    forall q | q in C ensures Sane(C[q]) && C[q].path == q && !C[q].deleted && C[q].ftype == TypeFile {
      var p :| Made(N, A, B, p, C[q]);
      CopyFacts(N, A, B, p, C[q]);
    }
  }

  // ---- what a round loses ----

  /** A holds live content at p that B does not supersede. */
  predicate Undominated(A: Record, B: Record, p: Path)
  {
    p in A && !A[p].deleted && (p in B ==> Order(A[p].version, B[p].version) != DominatedBy)
  }

  predicate Shows(f: Option<FileInfo>, h: Digest) { f.Some? && !f.value.deleted && f.value.contentHash == h }

  /** A's content of p loses a conflict, is not on record as a regular file, and gives way: nobody copies it. */
  ghost predicate GivenUp(N: Naming, A: Record, B: Record, p: Path)
  {
    && p in A && p in B && Asked(A, B, p) && InConflict(A[p], B[p]) && !NamingFails(N, A[p], B[p])
    && Loser(A[p], B[p]) == A[p] && !A[p].deleted
    && !HasLocalContent(A, A[p].contentHash) && Regular(Winner(A[p], B[p]))
  }

  /** Where the round leaves A's content of p: at p, or at its copy's path. */
  ghost function Home(N: Naming, A: Record, B: Record, p: Path): (q: Path)
    requires p in A
  {
    if !Shows(Outcome(N, A, B, p), A[p].contentHash) && MadeAt(N, A, B, p).Some? then MadeAt(N, A, B, p).value.path else p
  }

  predicate LiveAt(X: Record, q: Path, h: Digest) { Shows(Find(X, q), h) }

  /** The path is one where a side may refuse: never asked, unnameable, or a link in either record. */
  ghost predicate Refused(N: Naming, A: Record, B: Record, p: Path)
  {
    || !Asked(A, B, p)
    || (p in A && !Regular(A[p])) || (p in B && !Regular(B[p]))
    || (p in A && p in B && NamingFails(N, A[p], B[p]))
  }

  lemma {:induction false} OwnRegularIsHeld(A: Record, p: Path)
    requires p in A && !A[p].deleted && A[p].ftype == TypeFile
    ensures HasLocalContent(A, A[p].contentHash)
  {
  }

  /** A conflict that A's leaf loses, from A's side. */
  lemma {:induction false} LoserNext(N: Naming, holds: bool, a: FileInfo, b: FileInfo)
    requires Sane(a) && Sane(b) && a.path == b.path && InConflict(a, b) && !NamingFails(N, a, b)
    requires Loser(a, b) == a && !a.deleted
    ensures Winner(a, b) == b && CopyOf(Decide(N, Some(a), Some(b))).Some?
    ensures CopyOf(Decide(N, Some(a), Some(b))).value.contentHash == a.contentHash
    ensures PairNext(N, holds, Some(a), Some(b))
            == if !Regular(b) || (holds && a.ftype != TypeFile) then Some(a) else Some(b)
    ensures PairCopy(N, holds, Some(a), Some(b))
            == if holds && a.ftype == TypeFile then CopyOf(Decide(N, Some(a), Some(b))) else None
  {
    ConflictSymmetric(N, a, b);
  }

  /** The same from the winner's side: its record stays as it is. */
  lemma {:induction false} WinnerNext(N: Naming, holds: bool, a: FileInfo, b: FileInfo)
    requires Sane(a) && Sane(b) && a.path == b.path && InConflict(a, b) && !NamingFails(N, a, b)
    requires Loser(a, b) == b
    ensures Winner(a, b) == a && PairNext(N, holds, Some(a), Some(b)) == Some(a)
    ensures CopyOf(Decide(N, Some(a), Some(b))) == CopyOf(Decide(N, Some(b), Some(a)))
    ensures PairCopy(N, holds, Some(a), Some(b))
            == if holds && !b.deleted && b.ftype == TypeFile then CopyOf(Decide(N, Some(a), Some(b))) else None
  {
    ConflictSymmetric(N, a, b);
  }

  lemma {:induction false} LosersContent(N: Naming, A: Record, B: Record, p: Path)
    requires SaneRecord(A) && SaneRecord(B) && p in A && p in B && Asked(A, B, p) && !A[p].deleted
    requires InConflict(A[p], B[p]) && !NamingFails(N, A[p], B[p]) && Loser(A[p], B[p]) == A[p]
    ensures var x, c := Outcome(N, A, B, p), MadeAt(N, A, B, p);
            && (GivenUp(N, A, B, p) ==> !Shows(x, A[p].contentHash) && c.None?)
            && (!GivenUp(N, A, B, p) && !Shows(x, A[p].contentHash) ==> c.Some? && c.value.contentHash == A[p].contentHash)
  {
    var a, b := A[p], B[p];
    OutcomeIsPair(N, A, B, p);
    LoserNext(N, OnRecord(N, A, Some(a), Some(b)), a, b);
    if a.ftype == TypeFile { OwnRegularIsHeld(A, p); }
  }

  lemma {:induction false} NoConflictKeeps(N: Naming, holds: bool, a: FileInfo, b: FileInfo)
    requires Sane(a) && Sane(b) && a.path == b.path && !a.deleted
    requires Order(a.version, b.version) != DominatedBy
    requires InConflict(a, b) ==> NamingFails(N, a, b)
    ensures Shows(PairNext(N, holds, Some(a), Some(b)), a.contentHash)
    ensures PairCopy(N, holds, Some(a), Some(b)) == None
  {
    if InConflict(a, b) { ConflictSymmetric(N, a, b); } else { PairNoConflict(N, a, b); }
  }

  /** Unless it is given up, A's undominated content is at p after the round, or A makes its copy. */
  lemma {:induction false} OwnContent(N: Naming, A: Record, B: Record, p: Path)
    requires SaneRecord(A) && SaneRecord(B) && Undominated(A, B, p)
    ensures var x, c := Outcome(N, A, B, p), MadeAt(N, A, B, p);
            && (GivenUp(N, A, B, p) ==> !Shows(x, A[p].contentHash) && c.None?)
            && (!GivenUp(N, A, B, p) && !Shows(x, A[p].contentHash) ==> c.Some? && c.value.contentHash == A[p].contentHash)
  {
    if Asked(A, B, p) {
      var a, b := Find(A, p), Find(B, p);
      OutcomeIsPair(N, A, B, p);
      if b.Some? {
        if InConflict(A[p], B[p]) && !NamingFails(N, A[p], B[p]) {
          if Loser(A[p], B[p]) == A[p] { LosersContent(N, A, B, p); }
          else { WinnerNext(N, OnRecord(N, A, a, b), A[p], B[p]); }
        } else {
          NoConflictKeeps(N, OnRecord(N, A, a, b), A[p], B[p]);
        }
      }
    }
  }

  lemma {:induction false} WinnerTaken(N: Naming, holds: bool, a: FileInfo, b: FileInfo)
    requires Sane(a) && Sane(b) && a.path == b.path && !a.deleted && Regular(a) && Regular(b)
    requires InConflict(a, b) && !NamingFails(N, a, b) && Loser(a, b) == b && (b.deleted || holds)
    ensures PairNext(N, holds, Some(b), Some(a)) == Some(a)
  {
    ConflictRivals(a, b);
    ConflictIsMutual(a, b);
    ConflictSymmetric(N, a, b);
    if !b.deleted { LoserNext(N, holds, b, a); }
  }

  lemma {:induction false} NewerTaken(N: Naming, holds: bool, a: FileInfo, b: FileInfo)
    requires Sane(a) && Sane(b) && a.path == b.path && !a.deleted && Regular(a) && Regular(b)
    requires !InConflict(a, b) && Order(a.version, b.version) != DominatedBy
    ensures Shows(PairNext(N, holds, Some(b), Some(a)), a.contentHash)
  {
    PairNoConflict(N, a, b);
    PairNoConflict(N, b, a);
  }

  lemma {:induction false} OtherSideSettles(N: Naming, holds: bool, a: FileInfo, b: Option<FileInfo>)
    requires Sane(a) && SaneOpt(b) && (b.Some? ==> b.value.path == a.path) && !a.deleted && Regular(a)
    requires b.Some? ==> Regular(b.value) && Order(a.version, b.value.version) != DominatedBy
    requires b.Some? && InConflict(a, b.value) ==>
               Loser(a, b.value) == b.value && !NamingFails(N, a, b.value) && (b.value.deleted || holds)
    ensures Shows(PairNext(N, holds, b, Some(a)), a.contentHash)
  {
    if b.Some? {
      if InConflict(a, b.value) { WinnerTaken(N, holds, a, b.value); } else { NewerTaken(N, holds, a, b.value); }
    }
  }

  lemma {:induction false} LoserOnRecord(N: Naming, B: Record, p: Path, a: FileInfo)
    requires SaneRecord(B) && p in B && Sane(a) && a.path == p && InConflict(a, B[p]) && !NamingFails(N, a, B[p])
    requires Loser(a, B[p]) == B[p] && !B[p].deleted && B[p].ftype == TypeFile
    ensures OnRecord(N, B, Some(B[p]), Some(a))
  {
    ConflictRivals(a, B[p]);
    ConflictIsMutual(a, B[p]);
    ConflictSymmetric(N, a, B[p]);
    LoserNext(N, true, B[p], a);
    OwnRegularIsHeld(B, p);
  }

  /** Where no side may refuse, B ends with A's content at p too, unless it loses. */
  lemma {:induction false} OtherSide(N: Naming, A: Record, B: Record, p: Path)
    requires SaneRecord(A) && SaneRecord(B) && Undominated(A, B, p) && !Refused(N, A, B, p)
    requires Shows(Outcome(N, A, B, p), A[p].contentHash)
    ensures Shows(Outcome(N, B, A, p), A[p].contentHash)
  {
    var a, b := A[p], Find(B, p);
    AskedIsMutual(A, B, p);
    OutcomeIsPair(N, A, B, p);
    OutcomeIsPair(N, B, A, p);
    if b.Some? && InConflict(a, b.value) {
      ConflictRivals(a, b.value);
      if Loser(a, b.value) == a { LoserNext(N, OnRecord(N, A, Some(a), b), a, b.value); }
      else if !b.value.deleted { LoserOnRecord(N, B, p, a); }
    }
    OtherSideSettles(N, OnRecord(N, B, b, Some(a)), a, b);
  }

  lemma {:induction false} HomeWithoutCopy(N: Naming, A: Record, B: Record, p: Path)
    requires p in A && MadeAt(N, A, B, p) == None
    ensures Home(N, A, B, p) == p
  {
  }

  /** A's content of p is live at its home in A's next record X, and in B's next record Y too unless a side refuses. */
  ghost predicate Keeps(N: Naming, A: Record, B: Record, X: Record, Y: Record, p: Path)
    requires p in A
  {
    var q, h := Home(N, A, B, p), A[p].contentHash;
    LiveAt(X, q, h) && (LiveAt(Y, q, h) || Refused(N, A, B, p))
  }

  lemma {:induction false} RecordedOver(R: Record, C: Record, q: Path, h: Digest)
    requires q in C ==> !C[q].deleted
    ensures LiveAt(R + C, q, h) <==> if q in C then C[q].contentHash == h else LiveAt(R, q, h)
  {
  }

  lemma {:induction false} HomeIsCopied(N: Naming, A: Record, B: Record, C: Record, p: Path)
    requires SaneRecord(A) && SaneRecord(B) && Minted(N, A, B, C) && Undominated(A, B, p) && Home(N, A, B, p) !in C
    ensures Home(N, A, B, p) == p && (Shows(Outcome(N, A, B, p), A[p].contentHash) <==> !GivenUp(N, A, B, p))
  {
    OwnContent(N, A, B, p);
    if MadeAt(N, A, B, p).Some? { assert Made(N, A, B, p, MadeAt(N, A, B, p).value); }
  }

  /** A's content of p survives the round exactly when no copy of other content is recorded over its home and, where
      there is no copy at its home at all, it is not given up. */
  lemma {:induction false} KeptUnlessDisplaced(N: Naming, A: Record, B: Record, C: Record, p: Path)
    requires SaneRecord(A) && SaneRecord(B) && Minted(N, A, B, C) && Undominated(A, B, p)
    ensures var q := Home(N, A, B, p);
            Keeps(N, A, B, Round(N, A, B) + C, Round(N, B, A) + C, p)
            <==> if q in C then C[q].contentHash == A[p].contentHash else !GivenUp(N, A, B, p)
  {
    var q, h := Home(N, A, B, p), A[p].contentHash;
    CopiesAreSane(N, A, B, C);
    RecordedOver(Round(N, A, B), C, q, h);
    RecordedOver(Round(N, B, A), C, q, h);
    if q !in C {
      HomeIsCopied(N, A, B, C, p);
      RoundAt(N, A, B, p);
      RoundAt(N, B, A, p);
      if !Refused(N, A, B, p) && !GivenUp(N, A, B, p) { OtherSide(N, A, B, p); }
    }
  }

  /** No copy's path is the home of other content of A. */
  ghost predicate HomesFree(N: Naming, A: Record, B: Record)
  {
    forall p, c, q | Made(N, A, B, p, c) && Undominated(A, B, q) && Home(N, A, B, q) == c.path ::
      c.contentHash == A[q].contentHash
  }

  lemma {:induction false} HomeTaken(N: Naming, A: Record, B: Record, p: Path, c: FileInfo, q: Path)
    requires Made(N, A, B, p, c) && Undominated(A, B, q) && Home(N, A, B, q) == c.path && c.contentHash != A[q].contentHash
    ensures !HomesFree(N, A, B)
  {
  }

  /** No losing content is given up (a copy made at that very path, for another conflict, apart). */
  ghost predicate NoneGivenUp(N: Naming, A: Record, B: Record)
  {
    forall q | GivenUp(N, A, B, q) :: exists p, c :: Made(N, A, B, p, c) && c.path == q
  }

  ghost predicate AllKept(N: Naming, A: Record, B: Record, C: Record)
  {
    forall p | Undominated(A, B, p) :: Keeps(N, A, B, Round(N, A, B) + C, Round(N, B, A) + C, p)
  }

  lemma {:induction false} GivenUpIsUndominated(N: Naming, A: Record, B: Record, p: Path)
    requires SaneRecord(A) && SaneRecord(B) && GivenUp(N, A, B, p)
    ensures Undominated(A, B, p) && Home(N, A, B, p) == p
  {
    ConflictNotDominated(A[p], B[p]);
    OwnContent(N, A, B, p);
  }

  lemma {:induction false} ConflictNotDominated(a: FileInfo, b: FileInfo)
    requires InConflict(a, b)
    ensures Order(a.version, b.version) != DominatedBy
  {
  }

  lemma {:induction false} MintedIsMutual(N: Naming, A: Record, B: Record, C: Record)
    requires Minted(N, A, B, C)
    ensures Minted(N, B, A, C)
  {
    forall p, c ensures Made(N, A, B, p, c) <==> Made(N, B, A, p, c) {}
  }

  lemma {:induction false} GivenUpHomeIsCopied(N: Naming, A: Record, B: Record, C: Record, p: Path)
    requires SaneRecord(A) && SaneRecord(B) && Minted(N, A, B, C) && NoneGivenUp(N, A, B) && GivenUp(N, A, B, p)
    ensures Home(N, A, B, p) in C
  {
    GivenUpIsUndominated(N, A, B, p);
    var r, c :| Made(N, A, B, r, c) && c.path == p;
  }

  lemma {:induction false} FreeHomesKeep(N: Naming, A: Record, B: Record, C: Record)
    requires SaneRecord(A) && SaneRecord(B) && Minted(N, A, B, C) && HomesFree(N, A, B) && NoneGivenUp(N, A, B)
    ensures AllKept(N, A, B, C)
  {
    forall p | Undominated(A, B, p) ensures Keeps(N, A, B, Round(N, A, B) + C, Round(N, B, A) + C, p) {
      KeptUnlessDisplaced(N, A, B, C, p);
      if GivenUp(N, A, B, p) { GivenUpHomeIsCopied(N, A, B, C, p); }
      var q := Home(N, A, B, p);
      if q in C {
        var r :| Made(N, A, B, r, C[q]);
      }
    }
  }

  /** The copies, whichever of two with one path is recorded last, never cost A anything. */
  ghost predicate AlwaysKept(N: Naming, A: Record, B: Record)
  {
    forall C | Minted(N, A, B, C) :: AllKept(N, A, B, C)
  }

  lemma {:induction false} KeptMeansFree(N: Naming, A: Record, B: Record)
    requires SaneRecord(A) && SaneRecord(B) && AlwaysKept(N, A, B)
    ensures HomesFree(N, A, B) && NoneGivenUp(N, A, B)
  {
    forall p, c, q | Made(N, A, B, p, c) && Undominated(A, B, q) && Home(N, A, B, q) == c.path
      ensures c.contentHash == A[q].contentHash
    {
      var C := CopiesExist(N, A, B, map[c.path := c]);
      KeptUnlessDisplaced(N, A, B, C, q);
    }
    forall q | GivenUp(N, A, B, q) ensures exists p, c :: Made(N, A, B, p, c) && c.path == q {
      var C := CopiesExist(N, A, B, map[]);
      GivenUpIsUndominated(N, A, B, q);
      KeptUnlessDisplaced(N, A, B, C, q);
    }
  }

  /** A round never loses undominated live content of A, exactly when every copy's path is free (not the home of other
      content, nor the path of a copy of other content) and no losing content is given up: a regular file of it is on
      record, or the winner is a link and refused. */
  lemma {:induction false} RoundLosesNothing(N: Naming, A: Record, B: Record)
    requires SaneRecord(A) && SaneRecord(B)
    ensures AlwaysKept(N, A, B) <==> HomesFree(N, A, B) && NoneGivenUp(N, A, B)
  {
    if HomesFree(N, A, B) && NoneGivenUp(N, A, B) {
      forall C | Minted(N, A, B, C) ensures AllKept(N, A, B, C) { FreeHomesKeep(N, A, B, C); }
    }
    if AlwaysKept(N, A, B) { KeptMeansFree(N, A, B); }
  }

  // ---- fresh names ----

  /** Canonicalisation leaves the round's copies the names they were given, and those names are new to both sides. */
  ghost predicate NewNames(N: Naming, A: Record, B: Record)
  {
    forall p, c | Made(N, A, B, p, c) && p in A && p in B ::
      var w, l := Winner(A[p], B[p]), Loser(A[p], B[p]);
      c.path == RawName(N, l, LoserAuthor(l, w)) && c.path !in A && c.path !in B
  }

  lemma {:induction false} CopiesHaveOwnPaths(N: Naming, A: Record, B: Record, p: Path, c: FileInfo, q: Path, e: FileInfo)
    requires SaneRecord(A) && SaneRecord(B) && NewNames(N, A, B) && TellsSeconds(N) && PlainStamps(N)
    requires Made(N, A, B, p, c) && Made(N, A, B, q, e) && c.path == e.path
    ensures p == q && c == e
  {
    CopyFacts(N, A, B, p, c);
    CopyFacts(N, A, B, q, e);
    var f, g := Loser(A[p], B[p]), Loser(A[q], B[q]);
    PathsAreNamedApart(N, f, g, LoserAuthor(f, Winner(A[p], B[p])), LoserAuthor(g, Winner(A[q], B[q])));
  }

  lemma {:induction false} NewNamesFreeHomes(N: Naming, A: Record, B: Record)
    requires SaneRecord(A) && SaneRecord(B) && NewNames(N, A, B) && TellsSeconds(N) && PlainStamps(N)
    ensures HomesFree(N, A, B)
  {
    forall p, c, q | Made(N, A, B, p, c) && Undominated(A, B, q) && Home(N, A, B, q) == c.path
      ensures c.contentHash == A[q].contentHash
    {
      CopyFacts(N, A, B, p, c);
      OwnContent(N, A, B, q);
      if Home(N, A, B, q) != q {
        var e := MadeAt(N, A, B, q).value;
        assert Made(N, A, B, q, e);
        CopiesHaveOwnPaths(N, A, B, p, c, q, e);
      }
    }
  }

  /** With new names no copy displaces anything: then all that can be lost is a link that gives way. */
  lemma {:induction false} NewNamesLoseNothing(N: Naming, A: Record, B: Record)
    requires SaneRecord(A) && SaneRecord(B) && NewNames(N, A, B) && TellsSeconds(N) && PlainStamps(N)
    ensures AlwaysKept(N, A, B) <==> forall p :: !GivenUp(N, A, B, p)
  {
    NewNamesFreeHomes(N, A, B);
    RoundLosesNothing(N, A, B);
    forall p | GivenUp(N, A, B, p) ensures !NoneGivenUp(N, A, B) {
      if NoneGivenUp(N, A, B) {
        var r, c :| Made(N, A, B, r, c) && c.path == p;
        CopyFacts(N, A, B, r, c);
      }
    }
  }

  // ---- when a round leaves nothing to do ----

  ghost predicate Unmoved(N: Naming, X: Record, Y: Record, p: Path)
  {
    Outcome(N, X, Y, p) == Find(X, p) && Outcome(N, Y, X, p) == Find(Y, p)
  }

  ghost predicate CopiesRecorded(N: Naming, X: Record, Y: Record, p: Path)
  {
    forall c | Made(N, X, Y, p, c) :: Find(X, c.path) == Some(c) && Find(Y, c.path) == Some(c)
  }

  /** Another round changes no record of either side and makes no copy that is not recorded. */
  ghost predicate RestsAt(N: Naming, X: Record, Y: Record, p: Path)
  {
    Unmoved(N, X, Y, p) && CopiesRecorded(N, X, Y, p)
  }

  lemma {:induction false} NoneMade(N: Naming, X: Record, Y: Record, p: Path)
    requires MadeAt(N, X, Y, p) == None && MadeAt(N, Y, X, p) == None
    ensures CopiesRecorded(N, X, Y, p)
  {
  }

  ghost predicate Rests(N: Naming, X: Record, Y: Record) { forall p :: RestsAt(N, X, Y, p) }

  /** One content under concurrent versions, a regular file on one side and a link on the other: only one side can
      record the merged version at once. */
  predicate MixedTwins(a: FileInfo, b: FileInfo)
  {
    && Order(a.version, b.version) == Concurrent && SameContent(a, b) && !a.deleted
    && (a.ftype == TypeFile <==> b.ftype != TypeFile)
  }

  /** a is a losing link whose content was on record as a regular file, so that its copy was called for (and refused),
      and is not on record any more: now the winner takes its place. */
  predicate Orphaned(N: Naming, a: FileInfo, b: FileInfo, held: bool, holds: bool)
  {
    && InConflict(a, b) && !NamingFails(N, a, b) && Loser(a, b) == a && !a.deleted && a.ftype != TypeFile
    && Regular(Winner(a, b)) && held && !holds
  }

  /** A conflict that a link wins, so that the regular loser stays and is copied again by every round. */
  predicate Lingers(N: Naming, a: FileInfo, b: FileInfo)
  {
    && InConflict(a, b) && !NamingFails(N, a, b)
    && !Loser(a, b).deleted && Loser(a, b).ftype == TypeFile && !Regular(Winner(a, b))
  }

  lemma {:induction false} AgreedRests(N: Naming, holds: bool, a: FileInfo, b: FileInfo)
    requires Sane(a) && Sane(b) && Agree(a, b)
    ensures PairNext(N, holds, Some(a), Some(b)) == Some(a) && PairCopy(N, holds, Some(a), Some(b)) == None
  {
    AgreeIsNoOp(N, a, b);
  }

  /** Two leaves in a nameable conflict that a loses, one round and then another. */
  lemma {:induction false} LosingPairRests(N: Naming, a: FileInfo, b: FileInfo, hA: bool, hB: bool, hX: bool, hY: bool)
    requires Sane(a) && Sane(b) && a.path == b.path && InConflict(a, b) && !NamingFails(N, a, b) && Loser(a, b) == a
    ensures var x, y := PairNext(N, hA, Some(a), Some(b)), PairNext(N, hB, Some(b), Some(a));
            && (PairNext(N, hX, x, y) == x <==> !Orphaned(N, a, b, hA, hX))
            && PairNext(N, hY, y, x) == y == Some(b)
            && (x == Some(a) || x == Some(b))
            && (x == Some(a) && !a.deleted && a.ftype == TypeFile ==> Lingers(N, a, b))
  {
    ConflictRivals(a, b);
    ConflictIsMutual(a, b);
    ConflictSymmetric(N, a, b);
    AgreedRests(N, hX, b, b);
    AgreedRests(N, hY, b, b);
    WinnerNext(N, hB, b, a);
    WinnerNext(N, hY, b, a);
    if a.deleted {
      DeletedLoser(N, hA, a, b);
      DeletedLoser(N, hX, a, b);
    } else {
      LoserNext(N, hA, a, b);
      LoserNext(N, hX, a, b);
    }
  }

  lemma {:induction false} DeletedLoser(N: Naming, holds: bool, a: FileInfo, b: FileInfo)
    requires Sane(a) && Sane(b) && a.path == b.path && InConflict(a, b) && Loser(a, b) == a && a.deleted
    ensures PairNext(N, holds, Some(a), Some(b)) == if Regular(b) then Some(b) else Some(a)
    ensures PairCopy(N, holds, Some(a), Some(b)) == None
  {
    ConflictSymmetric(N, a, b);
  }

  lemma {:induction false} TwinsNext(N: Naming, holds: bool, a: FileInfo, b: FileInfo)
    requires Sane(a) && Sane(b) && Order(a.version, b.version) == Concurrent && SameContent(a, b)
    ensures var m := Merged(a.version, b.version);
            && PairNext(N, holds, Some(a), Some(b)) == Some(if Regular(a) then a.(version := m) else a)
            && PairCopy(N, holds, Some(a), Some(b)) == None
            && Order(m, b.version) == Dominates && Order(b.version, m) == DominatedBy && Merged(b.version, m) == m && b.version != m
  {
    var m := Merged(a.version, b.version);
    MergedIsLub(a.version, b.version);
    OrderPointwise(a.version, b.version);
    if Leq(m, b.version) { LeqTransitive(a.version, m, b.version); }
    MergedByOrder(b.version, m);
    LeqReflexive(b.version);
  }

  /** Once the regular side has recorded the merge, the link's side takes it. */
  lemma {:induction false} MixedTwinsMove(N: Naming, a: FileInfo, b: FileInfo, hX: bool, hY: bool)
    requires Sane(a) && Sane(b) && Order(a.version, b.version) == Concurrent && SameContent(a, b) && Regular(a) && !Regular(b)
    ensures var x := a.(version := Merged(a.version, b.version));
            && PairNext(N, hY, Some(b), Some(x)) == Some(x) && b != x
            && PairCopy(N, hX, Some(x), Some(b)) == None && PairCopy(N, hY, Some(b), Some(x)) == None
  {
    var m := Merged(a.version, b.version);
    TwinsNext(N, hX, a, b);
    MergedIsLub(a.version, b.version);
    DominatedNext(N, hY, b, a.(version := m));
    DominatedNext(N, hX, b, a.(version := m));
  }

  /** Concurrent versions of one content come to rest in one round unless only one side can record the merge. */
  lemma {:induction false} TwinsRest(N: Naming, a: FileInfo, b: FileInfo, hA: bool, hB: bool, hX: bool, hY: bool)
    requires Sane(a) && Sane(b) && a.path == b.path && Order(a.version, b.version) == Concurrent && SameContent(a, b)
    ensures var x, y := PairNext(N, hA, Some(a), Some(b)), PairNext(N, hB, Some(b), Some(a));
            && (PairNext(N, hX, x, y) == x && PairNext(N, hY, y, x) == y <==> !MixedTwins(a, b))
            && PairCopy(N, hX, x, y) == None && PairCopy(N, hY, y, x) == None
  {
    var m := Merged(a.version, b.version);
    ConflictFree(a, b);
    TwinsNext(N, hA, a, b);
    TwinsNext(N, hB, b, a);
    MergedCommutes(a.version, b.version);
    if Regular(a) && Regular(b) {
      MergedIsLub(a.version, b.version);
      AgreedRests(N, hX, a.(version := m), b.(version := m));
      AgreedRests(N, hY, b.(version := m), a.(version := m));
    } else if Regular(a) {
      MixedTwinsMove(N, a, b, hX, hY);
    } else if Regular(b) {
      MixedTwinsMove(N, b, a, hY, hX);
    } else {
      TwinsNext(N, hX, a, b);
      TwinsNext(N, hY, b, a);
    }
  }

  lemma {:induction false} ConflictFree(a: FileInfo, b: FileInfo)
    requires Sane(a) && Sane(b) && Order(a.version, b.version) == Concurrent
    ensures Order(b.version, a.version) == Concurrent
  {
    OrderPointwise(a.version, b.version);
    OrderPointwise(b.version, a.version);
  }

  lemma {:induction false} DominatedNext(N: Naming, holds: bool, a: FileInfo, b: FileInfo)
    requires Sane(a) && Sane(b) && Order(a.version, b.version) == DominatedBy
    ensures PairNext(N, holds, Some(a), Some(b)) == Some(if Regular(b) then b else a)
    ensures PairNext(N, holds, Some(b), Some(a)) == Some(b)
    ensures PairCopy(N, holds, Some(a), Some(b)) == None && PairCopy(N, holds, Some(b), Some(a)) == None
  {
    MergedByOrder(a.version, b.version);
    OrderPointwise(a.version, b.version);
    OrderPointwise(b.version, a.version);
  }

  lemma {:induction false} DominatedRests(N: Naming, a: FileInfo, b: FileInfo, hA: bool, hB: bool, hX: bool, hY: bool)
    requires Sane(a) && Sane(b) && Order(a.version, b.version) == DominatedBy
    ensures var x, y := PairNext(N, hA, Some(a), Some(b)), PairNext(N, hB, Some(b), Some(a));
            && PairNext(N, hX, x, y) == x && PairNext(N, hY, y, x) == y
            && PairCopy(N, hX, x, y) == None && PairCopy(N, hY, y, x) == None
  {
    DominatedNext(N, hA, a, b);
    DominatedNext(N, hB, a, b);
    DominatedNext(N, hX, a, b);
    DominatedNext(N, hY, a, b);
    AgreedRests(N, hX, b, b);
    AgreedRests(N, hY, b, b);
  }

  lemma {:induction false} StillRests(N: Naming, a: FileInfo, b: FileInfo, h: bool)
    requires Sane(a) && Sane(b) && a.path == b.path && (if InConflict(a, b) then NamingFails(N, a, b) else a.version == b.version)
    ensures PairNext(N, h, Some(a), Some(b)) == Some(a) && PairNext(N, h, Some(b), Some(a)) == Some(b)
    ensures PairCopy(N, h, Some(a), Some(b)) == None && PairCopy(N, h, Some(b), Some(a)) == None
  {
    LeqReflexive(a.version);
    if InConflict(a, b) {
      ConflictSymmetric(N, a, b);
    } else {
      AgreedRests(N, h, a, b);
      AgreedRests(N, h, b, a);
    }
  }

  /** Without a nameable conflict only mixed twins need another round. */
  lemma {:induction false} QuietPairRests(N: Naming, a: FileInfo, b: FileInfo, hA: bool, hB: bool, hX: bool, hY: bool)
    requires Sane(a) && Sane(b) && a.path == b.path && (InConflict(a, b) ==> NamingFails(N, a, b))
    ensures var x, y := PairNext(N, hA, Some(a), Some(b)), PairNext(N, hB, Some(b), Some(a));
            && (PairNext(N, hX, x, y) == x && PairNext(N, hY, y, x) == y <==> !MixedTwins(a, b))
            && PairCopy(N, hX, x, y) == None && PairCopy(N, hY, y, x) == None
  {
    OrderPointwise(a.version, b.version);
    OrderPointwise(b.version, a.version);
    match Order(a.version, b.version)
    case DominatedBy => DominatedRests(N, a, b, hA, hB, hX, hY);
    case Dominates => DominatedRests(N, b, a, hB, hA, hY, hX);
    case Equal => StillTwice(N, a, b, hA, hB, hX, hY);
    case Concurrent =>
      if SameContent(a, b) { TwinsRest(N, a, b, hA, hB, hX, hY); } else { StillTwice(N, a, b, hA, hB, hX, hY); }
  }

  lemma {:induction false} StillTwice(N: Naming, a: FileInfo, b: FileInfo, hA: bool, hB: bool, hX: bool, hY: bool)
    requires Sane(a) && Sane(b) && a.path == b.path && (if InConflict(a, b) then NamingFails(N, a, b) else a.version == b.version)
    ensures var x, y := PairNext(N, hA, Some(a), Some(b)), PairNext(N, hB, Some(b), Some(a));
            && PairNext(N, hX, x, y) == x && PairNext(N, hY, y, x) == y
            && PairCopy(N, hX, x, y) == None && PairCopy(N, hY, y, x) == None
  {
    StillRests(N, a, b, hA);
    StillRests(N, a, b, hB);
    StillRests(N, a, b, hX);
    StillRests(N, a, b, hY);
  }

  lemma {:induction false} AbsentRests(N: Naming, a: Option<FileInfo>, b: Option<FileInfo>, hA: bool, hB: bool, hX: bool, hY: bool)
    requires SaneOpt(a) && SaneOpt(b) && (a.None? || b.None?)
    ensures var x, y := PairNext(N, hA, a, b), PairNext(N, hB, b, a);
            && PairNext(N, hX, x, y) == x && PairNext(N, hY, y, x) == y
            && PairCopy(N, hX, x, y) == None && PairCopy(N, hY, y, x) == None
  {
    if a.Some? { AgreedRests(N, hX, a.value, a.value); AgreedRests(N, hY, a.value, a.value); }
    if b.Some? { AgreedRests(N, hX, b.value, b.value); AgreedRests(N, hY, b.value, b.value); }
  }

  // ---- from pairs to records ----

  /** At p one more round has something to do, for a reason found in the two leaves and in what is on record. */
  ghost predicate Unfinished(N: Naming, A: Record, B: Record, C: Record, p: Path)
  {
    var X, Y := Round(N, A, B) + C, Round(N, B, A) + C;
    && p in A && p in B
    && (|| MixedTwins(A[p], B[p])
        || Orphaned(N, A[p], B[p], HasLocalContent(A, A[p].contentHash), HasLocalContent(X, A[p].contentHash))
        || Orphaned(N, B[p], A[p], HasLocalContent(B, B[p].contentHash), HasLocalContent(Y, B[p].contentHash))
        || (Lingers(N, A[p], B[p]) && exists c :: Made(N, A, B, p, c) && Find(C, c.path) != Some(c)))
  }

  lemma {:induction false} SubsetBuildable(A: Record, X: Record)
    requires SaneRecord(A) && SaneRecord(X) && A.Keys <= X.Keys && BuildableSet(X.Values)
    ensures BuildableSet(A.Values)
  {
    forall f | f in A.Values ensures GoodPath(f.path) { assert X[f.path] in X.Values; }
    forall f, g | f in A.Values && g in A.Values && f != g ensures !Exclude(f, g) {
      assert X[f.path] in X.Values && X[g.path] in X.Values;
      assert !Exclude(X[f.path], X[g.path]);
    }
  }

  lemma {:induction false} ClashPersists(A: Record, B: Record, X: Record, Y: Record, p: Path)
    requires A.Keys <= X.Keys && B.Keys <= Y.Keys && Clashed(A, B, p)
    ensures Clashed(X, Y, p)
  {
    var q :| ClashesWith(A, B, p, q);
    assert ClashesWith(X, Y, p, q);
  }

  /** A round takes no path away, so what is asked afterwards was asked before. */
  lemma {:induction false} AskedBefore(A: Record, B: Record, X: Record, Y: Record, p: Path)
    requires SaneRecord(A) && SaneRecord(B) && SaneRecord(X) && SaneRecord(Y)
    requires A.Keys <= X.Keys && B.Keys <= Y.Keys && Asked(X, Y, p)
    ensures Asked(A, B, p)
  {
    SubsetBuildable(A, X);
    SubsetBuildable(B, Y);
    if Clashed(A, B, p) { ClashPersists(A, B, X, Y, p); }
  }

  lemma {:induction false} RoundIsSane(N: Naming, A: Record, B: Record, C: Record)
    requires SaneRecord(A) && SaneRecord(B) && Minted(N, A, B, C)
    ensures SaneRecord(Round(N, A, B) + C) && A.Keys <= (Round(N, A, B) + C).Keys
    ensures forall p | p !in C :: Find(Round(N, A, B) + C, p) == Outcome(N, A, B, p)
  {
    var R := Round(N, A, B);
    CopiesAreSane(N, A, B, C);
    forall p ensures p in R ==> Sane(R[p]) && R[p].path == p
      ensures p in A ==> p in R
      ensures Find(R, p) == Outcome(N, A, B, p)
    {
      RoundAt(N, A, B, p);
    }
  }

  /** The two records after the round, the copies recorded on both. */
  ghost predicate Rounded(N: Naming, A: Record, B: Record, C: Record, X: Record, Y: Record)
  {
    && SaneRecord(A) && SaneRecord(B) && Minted(N, A, B, C) && SaneRecord(X) && SaneRecord(Y)
    && X == Round(N, A, B) + C && Y == Round(N, B, A) + C
    && A.Keys <= X.Keys && B.Keys <= Y.Keys
    && forall p | p !in C :: Find(X, p) == Outcome(N, A, B, p) && Find(Y, p) == Outcome(N, B, A, p)
  }

  lemma {:induction false} RoundedIsMutual(N: Naming, A: Record, B: Record, C: Record, X: Record, Y: Record)
    requires Rounded(N, A, B, C, X, Y)
    ensures Rounded(N, B, A, C, Y, X)
  {
    MintedIsMutual(N, A, B, C);
  }

  lemma {:induction false} UnaskedRests(N: Naming, X: Record, Y: Record, p: Path)
    requires !Asked(X, Y, p)
    ensures RestsAt(N, X, Y, p)
  {
    AskedIsMutual(X, Y, p);
  }

  lemma {:induction false} CopiedRests(N: Naming, X: Record, Y: Record, p: Path)
    requires SaneRecord(X) && SaneRecord(Y) && Asked(X, Y, p) && p in X && p in Y && X[p] == Y[p]
    ensures RestsAt(N, X, Y, p)
  {
    AskedIsMutual(X, Y, p);
    OutcomeIsPair(N, X, Y, p);
    OutcomeIsPair(N, Y, X, p);
    AgreedRests(N, OnRecord(N, X, Find(X, p), Find(Y, p)), X[p], Y[p]);
    AgreedRests(N, OnRecord(N, Y, Find(Y, p), Find(X, p)), Y[p], X[p]);
    NoneMade(N, X, Y, p);
  }

  /** What both rounds do at a path where the resolver is asked both times. */
  lemma {:induction false} TwoRounds(N: Naming, A: Record, B: Record, C: Record, X: Record, Y: Record, p: Path)
    requires Rounded(N, A, B, C, X, Y) && Asked(X, Y, p) && p !in C
    ensures Asked(A, B, p) && Asked(B, A, p) && Asked(Y, X, p)
    ensures var a, b := Find(A, p), Find(B, p);
            && Find(X, p) == PairNext(N, OnRecord(N, A, a, b), a, b) && Find(Y, p) == PairNext(N, OnRecord(N, B, b, a), b, a)
    ensures var x, y := Find(X, p), Find(Y, p);
            && Outcome(N, X, Y, p) == PairNext(N, OnRecord(N, X, x, y), x, y)
            && Outcome(N, Y, X, p) == PairNext(N, OnRecord(N, Y, y, x), y, x)
            && MadeAt(N, X, Y, p) == PairCopy(N, OnRecord(N, X, x, y), x, y)
            && MadeAt(N, Y, X, p) == PairCopy(N, OnRecord(N, Y, y, x), y, x)
  {
    AskedBefore(A, B, X, Y, p);
    AskedIsMutual(A, B, p);
    AskedIsMutual(X, Y, p);
    OutcomeIsPair(N, A, B, p);
    OutcomeIsPair(N, B, A, p);
    OutcomeIsPair(N, X, Y, p);
    OutcomeIsPair(N, Y, X, p);
  }

  lemma {:induction false} QuietPath(N: Naming, A: Record, B: Record, C: Record, X: Record, Y: Record, p: Path)
    requires Rounded(N, A, B, C, X, Y) && Asked(X, Y, p) && p !in C
    requires p in A && p in B && InConflict(A[p], B[p]) ==> NamingFails(N, A[p], B[p])
    ensures RestsAt(N, X, Y, p) <==> !(p in A && p in B && MixedTwins(A[p], B[p]))
  {
    var a, b, x, y := Find(A, p), Find(B, p), Find(X, p), Find(Y, p);
    TwoRounds(N, A, B, C, X, Y, p);
    var hA, hB, hX, hY := OnRecord(N, A, a, b), OnRecord(N, B, b, a), OnRecord(N, X, x, y), OnRecord(N, Y, y, x);
    if a.Some? && b.Some? {
      QuietPairRests(N, a.value, b.value, hA, hB, hX, hY);
    } else {
      AbsentRests(N, a, b, hA, hB, hX, hY);
    }
    NoneMade(N, X, Y, p);
  }

  /** The copies of a lingering conflict. */
  lemma {:induction false} LingeringCopies(N: Naming, A: Record, B: Record, p: Path)
    requires SaneRecord(A) && SaneRecord(B) && p in A && p in B && Asked(A, B, p)
    requires Lingers(N, A[p], B[p]) && Loser(A[p], B[p]) == A[p]
    ensures forall c :: Made(N, A, B, p, c) <==> CopyOf(Decide(N, Some(A[p]), Some(B[p]))) == Some(c)
  {
    var a, b := A[p], B[p];
    AskedIsMutual(A, B, p);
    OutcomeIsPair(N, A, B, p);
    OutcomeIsPair(N, B, A, p);
    LoserNext(N, OnRecord(N, A, Some(a), Some(b)), a, b);
    OwnRegularIsHeld(A, p);
    ConflictRivals(a, b);
    ConflictIsMutual(a, b);
    ConflictSymmetric(N, a, b);
    WinnerNext(N, OnRecord(N, B, Some(b), Some(a)), b, a);
  }

  /** Whether the copy of a lingering conflict is recorded at its path. */
  lemma {:induction false} LingeringPath(N: Naming, A: Record, B: Record, C: Record, X: Record, Y: Record, p: Path)
    requires Rounded(N, A, B, C, X, Y) && Asked(X, Y, p) && Asked(A, B, p) && p in A && p in B
    requires Lingers(N, A[p], B[p]) && Loser(A[p], B[p]) == A[p]
    requires Find(X, p) == Find(A, p) && Find(Y, p) == Find(B, p)
    ensures CopiesRecorded(N, X, Y, p) <==> !exists c :: Made(N, A, B, p, c) && Find(C, c.path) != Some(c)
  {
    LingeringCopies(N, A, B, p);
    LingeringCopies(N, X, Y, p);
    forall c | Made(N, A, B, p, c)
      ensures Find(X, c.path) == Find(C, c.path) && Find(Y, c.path) == Find(C, c.path)
    {
      assert c.path in C;
    }
  }

  lemma {:induction false} NoMoreCopies(N: Naming, X: Record, Y: Record, p: Path)
    requires SaneRecord(X) && SaneRecord(Y) && p in X && p in Y
    requires X[p] == Y[p] || Loser(X[p], Y[p]).ftype != TypeFile || Loser(X[p], Y[p]).deleted
    ensures CopiesRecorded(N, X, Y, p)
  {
    if MadeAt(N, X, Y, p).Some? { MadeIsCopy(N, X, Y, p); }
    if MadeAt(N, Y, X, p).Some? { CopyFacts(N, X, Y, p, MadeAt(N, Y, X, p).value); }
    NoneMade(N, X, Y, p);
  }

  /** A conflict that A's leaf loses. */
  lemma {:induction false} LosingPath(N: Naming, A: Record, B: Record, C: Record, X: Record, Y: Record, p: Path)
    requires Rounded(N, A, B, C, X, Y) && Asked(X, Y, p) && p !in C && p in A && p in B
    requires InConflict(A[p], B[p]) && !NamingFails(N, A[p], B[p]) && Loser(A[p], B[p]) == A[p]
    ensures Unmoved(N, X, Y, p) <==>
            !Orphaned(N, A[p], B[p], HasLocalContent(A, A[p].contentHash), HasLocalContent(X, A[p].contentHash))
    ensures CopiesRecorded(N, X, Y, p) <==>
            !(Lingers(N, A[p], B[p]) && exists c :: Made(N, A, B, p, c) && Find(C, c.path) != Some(c))
  {
    var a, b := A[p], B[p];
    TwoRounds(N, A, B, C, X, Y, p);
    var x, y := Find(X, p), Find(Y, p);
    LosingPairRests(N, a, b, OnRecord(N, A, Some(a), Some(b)), OnRecord(N, B, Some(b), Some(a)), OnRecord(N, X, x, y), OnRecord(N, Y, y, x));
    if !a.deleted {
      LoserNext(N, OnRecord(N, A, Some(a), Some(b)), a, b);
    } else {
      DeletedLoser(N, OnRecord(N, A, Some(a), Some(b)), a, b);
    }
    if Lingers(N, a, b) { LingeringPath(N, A, B, C, X, Y, p); } else { NoMoreCopies(N, X, Y, p); }
  }

  lemma {:induction false} UnfinishedByLoser(N: Naming, A: Record, B: Record, C: Record, p: Path)
    requires SaneRecord(A) && SaneRecord(B) && p in A && p in B
    requires InConflict(A[p], B[p]) && Loser(A[p], B[p]) == A[p]
    ensures var X := Round(N, A, B) + C;
            Unfinished(N, A, B, C, p) <==>
            || Orphaned(N, A[p], B[p], HasLocalContent(A, A[p].contentHash), HasLocalContent(X, A[p].contentHash))
            || (Lingers(N, A[p], B[p]) && exists c :: Made(N, A, B, p, c) && Find(C, c.path) != Some(c))
  {
    ConflictRivals(A[p], B[p]);
  }

  lemma {:induction false} UnfinishedIsMutual(N: Naming, A: Record, B: Record, C: Record, p: Path)
    requires SaneRecord(A) && SaneRecord(B) && Unfinished(N, A, B, C, p)
    ensures Unfinished(N, B, A, C, p)
  {
    var a, b := A[p], B[p];
    OrderPointwise(a.version, b.version);
    OrderPointwise(b.version, a.version);
    if Lingers(N, a, b) {
      ConflictRivals(a, b);
      ConflictIsMutual(a, b);
      LingersMutually(N, A, B, C, p);
    }
  }

  lemma {:induction false} LingersMutually(N: Naming, A: Record, B: Record, C: Record, p: Path)
    ensures (exists c :: Made(N, A, B, p, c) && Find(C, c.path) != Some(c))
        ==> (exists c :: Made(N, B, A, p, c) && Find(C, c.path) != Some(c))
  {
    if exists c :: Made(N, A, B, p, c) && Find(C, c.path) != Some(c) {
      var c :| Made(N, A, B, p, c) && Find(C, c.path) != Some(c);
      assert Made(N, B, A, p, c);
    }
  }

  lemma {:induction false} LosingPathRests(N: Naming, A: Record, B: Record, C: Record, X: Record, Y: Record, p: Path)
    requires Rounded(N, A, B, C, X, Y) && Asked(X, Y, p) && p !in C && p in A && p in B
    requires InConflict(A[p], B[p]) && !NamingFails(N, A[p], B[p]) && Loser(A[p], B[p]) == A[p]
    ensures RestsAt(N, X, Y, p) <==> !Unfinished(N, A, B, C, p)
  {
    LosingPath(N, A, B, C, X, Y, p);
    UnfinishedByLoser(N, A, B, C, p);
  }

  lemma {:induction false} RestsMutually(N: Naming, X: Record, Y: Record, p: Path)
    requires RestsAt(N, X, Y, p)
    ensures RestsAt(N, Y, X, p)
  {
    forall c ensures Made(N, X, Y, p, c) <==> Made(N, Y, X, p, c) {}
  }

  lemma {:induction false} WinningPathRests(N: Naming, A: Record, B: Record, C: Record, X: Record, Y: Record, p: Path)
    requires Rounded(N, A, B, C, X, Y) && Asked(X, Y, p) && p !in C && p in A && p in B
    requires InConflict(A[p], B[p]) && !NamingFails(N, A[p], B[p]) && Loser(A[p], B[p]) == B[p]
    ensures RestsAt(N, X, Y, p) <==> !Unfinished(N, A, B, C, p)
  {
    ConflictRivals(A[p], B[p]);
    ConflictIsMutual(A[p], B[p]);
    RoundedIsMutual(N, A, B, C, X, Y);
    AskedIsMutual(X, Y, p);
    LosingPathRests(N, B, A, C, Y, X, p);
    if Unfinished(N, A, B, C, p) { UnfinishedIsMutual(N, A, B, C, p); }
    if Unfinished(N, B, A, C, p) { UnfinishedIsMutual(N, B, A, C, p); }
    if RestsAt(N, X, Y, p) { RestsMutually(N, X, Y, p); }
    if RestsAt(N, Y, X, p) { RestsMutually(N, Y, X, p); }
  }

  predicate Contested(N: Naming, A: Record, B: Record, p: Path)
  {
    p in A && p in B && InConflict(A[p], B[p]) && !NamingFails(N, A[p], B[p])
  }

  lemma {:induction false} UncontestedUnfinished(N: Naming, A: Record, B: Record, C: Record, p: Path)
    requires SaneRecord(A) && SaneRecord(B) && !Contested(N, A, B, p)
    ensures Unfinished(N, A, B, C, p) <==> p in A && p in B && MixedTwins(A[p], B[p])
  {
    if p in A && p in B && InConflict(B[p], A[p]) {
      ConflictIsMutual(B[p], A[p]);
      ConflictRivals(A[p], B[p]);
    }
  }

  lemma {:induction false} PathRests(N: Naming, A: Record, B: Record, C: Record, X: Record, Y: Record, p: Path)
    requires Rounded(N, A, B, C, X, Y) && Asked(X, Y, p) && p !in C
    ensures RestsAt(N, X, Y, p) <==> !Unfinished(N, A, B, C, p)
  {
    if !Contested(N, A, B, p) {
      QuietPath(N, A, B, C, X, Y, p);
      UncontestedUnfinished(N, A, B, C, p);
    } else if Loser(A[p], B[p]) == A[p] {
      LosingPathRests(N, A, B, C, X, Y, p);
    } else {
      WinningPathRests(N, A, B, C, X, Y, p);
    }
  }

  /** One round, with the copies recorded on both sides, leaves nothing to do exactly when no path is left unfinished:
      mixed twins, an orphaned link, or a lingering conflict whose copy another copy displaced. Paths at which the
      resolver is not asked (any more), or where a copy came to lie, never are. */
  lemma {:induction false} RoundConverges(N: Naming, A: Record, B: Record, C: Record)
    requires SaneRecord(A) && SaneRecord(B) && Minted(N, A, B, C)
    ensures var X, Y := Round(N, A, B) + C, Round(N, B, A) + C;
            Rests(N, X, Y) <==> forall p | Asked(X, Y, p) && p !in C :: !Unfinished(N, A, B, C, p)
  {
    var X, Y := Round(N, A, B) + C, Round(N, B, A) + C;
    MintedIsMutual(N, A, B, C);
    RoundIsSane(N, A, B, C);
    RoundIsSane(N, B, A, C);
    assert Rounded(N, A, B, C, X, Y);
    forall p ensures RestsAt(N, X, Y, p) <==> (Asked(X, Y, p) && p !in C ==> !Unfinished(N, A, B, C, p)) {
      if !Asked(X, Y, p) {
        UnaskedRests(N, X, Y, p);
      } else if p in C {
        CopiedRests(N, X, Y, p);
      } else {
        PathRests(N, A, B, C, X, Y, p);
      }
    }
  }

  ghost predicate AllRegular(A: Record) { forall p | p in A :: Regular(A[p]) }

  lemma {:induction false} SettledStays(N: Naming, holds: bool, a: Option<FileInfo>, b: Option<FileInfo>)
    requires Decide(N, a, b) == NoOp
    ensures PairNext(N, holds, a, b) == a && PairCopy(N, holds, a, b) == None
  {
  }

  lemma {:induction false} UnsettledMoves(N: Naming, hX: bool, hY: bool, a: FileInfo, b: FileInfo)
    requires Sane(a) && Sane(b) && a.path == b.path && Regular(a) && Regular(b) && !Settled(N, Some(a), Some(b))
    ensures PairNext(N, hX, Some(a), Some(b)) != Some(a) || PairNext(N, hY, Some(b), Some(a)) != Some(b)
  {
    OrderPointwise(a.version, b.version);
    OrderPointwise(b.version, a.version);
    if InConflict(a, b) {
      ConflictRivals(a, b);
      ConflictIsMutual(a, b);
      ConflictSymmetric(N, a, b);
      if Loser(a, b) == a { RegularLoserMoves(N, hX, a, b); } else { RegularLoserMoves(N, hY, b, a); }
    } else if Order(a.version, b.version) == DominatedBy {
      DominatedNext(N, hX, a, b);
    } else if Order(a.version, b.version) == Dominates {
      DominatedNext(N, hY, b, a);
    } else if Order(a.version, b.version) == Concurrent {
      TwinsNext(N, hY, b, a);
      ConflictFree(a, b);
      TwinsNext(N, hX, a, b);
      MergedCommutes(a.version, b.version);
    }
  }

  lemma {:induction false} RegularLoserMoves(N: Naming, holds: bool, a: FileInfo, b: FileInfo)
    requires Sane(a) && Sane(b) && a.path == b.path && InConflict(a, b) && !NamingFails(N, a, b) && Loser(a, b) == a
    requires Regular(a) && Regular(b)
    ensures PairNext(N, holds, Some(a), Some(b)) == Some(b)
  {
    if a.deleted { DeletedLoser(N, holds, a, b); } else { LoserNext(N, holds, a, b); }
  }

  /** At a path where the resolver is asked about regular files, a path rests exactly when it is settled: the two sides
      agree, or one alone knows a tombstone, or the conflict cannot be named. */
  lemma {:induction false} RestIsSettled(N: Naming, X: Record, Y: Record, p: Path)
    requires SaneRecord(X) && SaneRecord(Y) && Asked(X, Y, p) && AllRegular(X) && AllRegular(Y)
    ensures RestsAt(N, X, Y, p) <==> Settled(N, Find(X, p), Find(Y, p))
  {
    var x, y := Find(X, p), Find(Y, p);
    AskedIsMutual(X, Y, p);
    OutcomeIsPair(N, X, Y, p);
    OutcomeIsPair(N, Y, X, p);
    if Settled(N, x, y) {
      SettledIsNoOp(N, x, y);
      SettledStays(N, OnRecord(N, X, x, y), x, y);
      SettledStays(N, OnRecord(N, Y, y, x), y, x);
      NoneMade(N, X, Y, p);
    } else if x.Some? && y.Some? {
      UnsettledMoves(N, OnRecord(N, X, x, y), OnRecord(N, Y, y, x), x.value, y.value);
    }
  }

  lemma {:induction false} OutcomeIsRegular(N: Naming, A: Record, B: Record, p: Path)
    requires AllRegular(A)
    ensures Outcome(N, A, B, p).Some? ==> Regular(Outcome(N, A, B, p).value)
  {
  }

  lemma {:induction false} RoundIsRegular(N: Naming, A: Record, B: Record, C: Record)
    requires SaneRecord(A) && SaneRecord(B) && Minted(N, A, B, C) && AllRegular(A)
    ensures AllRegular(Round(N, A, B) + C)
  {
    CopiesAreSane(N, A, B, C);
    forall p | p in Round(N, A, B) ensures Regular(Round(N, A, B)[p]) { OutcomeIsRegular(N, A, B, p); }
  }

  lemma {:induction false} RegularRoundRests(N: Naming, A: Record, B: Record, C: Record)
    requires SaneRecord(A) && SaneRecord(B) && Minted(N, A, B, C) && AllRegular(A) && AllRegular(B)
    ensures Rests(N, Round(N, A, B) + C, Round(N, B, A) + C)
  {
    RoundConverges(N, A, B, C);
  }

  lemma {:induction false} RegularRestSettles(N: Naming, X: Record, Y: Record)
    requires SaneRecord(X) && SaneRecord(Y) && AllRegular(X) && AllRegular(Y) && Rests(N, X, Y)
    ensures forall p | Asked(X, Y, p) :: Settled(N, Find(X, p), Find(Y, p))
  {
    forall p | Asked(X, Y, p) ensures Settled(N, Find(X, p), Find(Y, p)) {
      assert RestsAt(N, X, Y, p);
      RestIsSettled(N, X, Y, p);
    }
  }

  /** Records of regular files come to rest in one round, with any copies, and are then settled wherever the resolver
      is asked. */
  lemma {:induction false} RegularRoundConverges(N: Naming, A: Record, B: Record, C: Record)
    requires SaneRecord(A) && SaneRecord(B) && Minted(N, A, B, C) && AllRegular(A) && AllRegular(B)
    ensures var X, Y := Round(N, A, B) + C, Round(N, B, A) + C;
            Rests(N, X, Y) && forall p | Asked(X, Y, p) :: Settled(N, Find(X, p), Find(Y, p))
  {
    RegularRoundRests(N, A, B, C);
    MintedIsMutual(N, A, B, C);
    RoundIsRegular(N, A, B, C);
    RoundIsRegular(N, B, A, C);
    RoundIsSane(N, A, B, C);
    RoundIsSane(N, B, A, C);
    RegularRestSettles(N, Round(N, A, B) + C, Round(N, B, A) + C);
  }
}
