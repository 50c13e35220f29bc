/** Two rounds that lose content: a link that loses to a deletion, and a conflict copy recorded over another leaf. */
module Losses {
  import opened Basics
  import opened Paths
  import opened VersionVectors
  import opened FileInfos
  import opened Trees
  import opened TreeBuild
  import opened Conflict
  import opened Resolve
  import opened Tombstones
  import opened Apply
  import opened RecordDiff
  import opened Rounds

  /** Neither next record has live content h anywhere. */
  ghost predicate Gone(X: Record, Y: Record, h: Digest) { forall q :: !LiveAt(X, q, h) && !LiveAt(Y, q, h) }

  lemma {:induction false} NoCopies(N: Naming, A: Record, B: Record, C: Record)
    requires Minted(N, A, B, C) && forall p, c :: !Made(N, A, B, p, c)
    ensures C == map[]
  {
    forall q ensures q !in C {}
  }

  // ---- a link that loses ----

  lemma {:induction false} OneLeafBuildable(f: FileInfo)
    requires GoodPath(f.path)
    ensures BuildableSet(map[f.path := f].Values)
  {
    assert forall g | g in map[f.path := f].Values :: g == f;
  }

  lemma {:induction false} OneLeafAsked(a: FileInfo, b: FileInfo)
    requires a.path == b.path && GoodPath(a.path)
    ensures Asked(map[a.path := a], map[b.path := b], a.path)
  {
    OneLeafBuildable(a);
    OneLeafBuildable(b);
    assert forall q :: !ClashesWith(map[a.path := a], map[b.path := b], a.path, q);
  }

  /** A link that loses to a deletion, without a regular file of its content. */
  predicate LinkLoses(N: Naming, a: FileInfo, b: FileInfo)
  {
    && Sane(a) && Sane(b) && a.path == b.path && GoodPath(a.path)
    && !a.deleted && a.ftype != TypeFile && b.deleted
    && InConflict(a, b) && !NamingFails(N, a, b) && Loser(a, b) == a
  }

  lemma {:induction false} LinkGivesWay(N: Naming, a: FileInfo, b: FileInfo)
    requires LinkLoses(N, a, b)
    ensures var A, B := map[a.path := a], map[b.path := b];
            && Asked(A, B, a.path) && GivenUp(N, A, B, a.path) && Undominated(A, B, a.path)
            && Outcome(N, A, B, a.path) == Some(b) && Outcome(N, B, A, a.path) == Some(b)
  {
    var A, B, p := map[a.path := a], map[b.path := b], a.path;
    OneLeafAsked(a, b);
    AskedIsMutual(A, B, p);
    OutcomeIsPair(N, A, B, p);
    OutcomeIsPair(N, B, A, p);
    ConflictRivals(a, b);
    ConflictIsMutual(a, b);
    ConflictSymmetric(N, a, b);
    ConflictNotDominated(a, b);
    LoserNext(N, OnRecord(N, A, Some(a), Some(b)), a, b);
    WinnerNext(N, OnRecord(N, B, Some(b), Some(a)), b, a);
  }

  lemma {:induction false} LinkIsNotCopied(N: Naming, a: FileInfo, b: FileInfo, q: Path, c: FileInfo)
    requires LinkLoses(N, a, b)
    ensures !Made(N, map[a.path := a], map[b.path := b], q, c)
  {
    if Made(N, map[a.path := a], map[b.path := b], q, c) { CopyFacts(N, map[a.path := a], map[b.path := b], q, c); }
  }

  lemma {:induction false} LinkMakesNoCopy(N: Naming, a: FileInfo, b: FileInfo, C: Record)
    requires LinkLoses(N, a, b) && Minted(N, map[a.path := a], map[b.path := b], C)
    ensures var A, B := map[a.path := a], map[b.path := b]; C == map[] && HomesFree(N, A, B) && HomesFree(N, B, A)
  {
    var A, B := map[a.path := a], map[b.path := b];
    forall q, c ensures !Made(N, A, B, q, c) && !Made(N, B, A, q, c) { LinkIsNotCopied(N, a, b, q, c); }
    NoCopies(N, A, B, C);
  }

  /** Whatever link and deletion: if the deletion wins, both peers bury the path and neither makes the copy that the
      resolver names, although every copy's path is free. */
  lemma {:induction false} LosingLinkIsLost(N: Naming, a: FileInfo, b: FileInfo, C: Record)
    requires LinkLoses(N, a, b) && Minted(N, map[a.path := a], map[b.path := b], C)
    ensures var A, B := map[a.path := a], map[b.path := b];
            && CopyOf(Decide(N, Some(a), Some(b))).Some?
            && Undominated(A, B, a.path) && GivenUp(N, A, B, a.path) && HomesFree(N, A, B) && HomesFree(N, B, A)
            && Gone(Round(N, A, B) + C, Round(N, B, A) + C, a.contentHash)
  {
    var A, B, p := map[a.path := a], map[b.path := b], a.path;
    LinkGivesWay(N, a, b);
    ConflictSymmetric(N, a, b);
    LinkMakesNoCopy(N, a, b, C);
    BuriedRound(N, A, B, p, b, a.contentHash);
    BuriedRound(N, B, A, p, b, a.contentHash);
  }

  lemma {:induction false} BuriedRound(N: Naming, A: Record, B: Record, p: Path, b: FileInfo, h: Digest)
    requires SaneRecord(A) && SaneRecord(B) && A.Keys == {p} && B.Keys == {p}
    requires Outcome(N, A, B, p) == Some(b) && b.deleted
    ensures forall q :: !LiveAt(Round(N, A, B) + map[], q, h)
  {
    forall q ensures !LiveAt(Round(N, A, B) + map[], q, h) { RoundAt(N, A, B, q); }
  }

  const CLOCK: Naming := Naming((t: int) => [0x30], (p: Path) => Some(p))

  const NAME: Path := [0x61]

  /** Device 1's link, and device 2's deletion of one of that name a second later. */
  function Link(h: Digest): (f: FileInfo) { FileInfo(NAME, h, 0, 0, 0, [Counter(1, 1)], false, TypeSymlink) }
  function Unlinked(): (f: FileInfo) { FileInfo(NAME, ZeroDigest, 0, 0, NANOS, [Counter(2, 1)], true, TypeSymlink) }

  lemma {:induction false} NameIsGood()
    ensures GoodPath(NAME)
  {
    SplitOfName(NAME);
  }

  lemma {:induction false} AtOne(i: ShortID, n: U64, j: ShortID)
    ensures At([Counter(i, n)], j) == if i == j then n else 0
  {
    assert [Counter(i, n)][1..] == [];
  }

  lemma {:induction false} Apart(m: U64, n: U64)
    requires m > 0 && n > 0
    ensures Canonical([Counter(1, m)]) && Canonical([Counter(2, n)])
    ensures Order([Counter(1, m)], [Counter(2, n)]) == Concurrent
  {
    AtOne(1, m, 2);
    AtOne(2, n, 1);
    assert [Counter(1, m)][0].value > 0 && [Counter(2, n)][0].value > 0;
  }

  lemma {:induction false} LinkDoesLose(h: Digest)
    requires h != ZeroDigest
    ensures LinkLoses(CLOCK, Link(h), Unlinked())
  {
    NameIsGood();
    Apart(1, 1);
  }

  lemma {:induction false} ALinkIsLost(h: Digest, C: Record)
    requires h != ZeroDigest && Minted(CLOCK, map[NAME := Link(h)], map[NAME := Unlinked()], C)
    ensures var A, B := map[NAME := Link(h)], map[NAME := Unlinked()];
            && Undominated(A, B, NAME) && HomesFree(CLOCK, A, B) && HomesFree(CLOCK, B, A)
            && Gone(Round(CLOCK, A, B) + C, Round(CLOCK, B, A) + C, h)
  {
    LinkDoesLose(h);
    LosingLinkIsLost(CLOCK, Link(h), Unlinked(), C);
  }

  // ---- a copy recorded over a leaf ----

  /** Plain names, without a slash. */
  predicate Named(p: Path) { GoodPath(p) && Split(p) == [p] }

  predicate Live(f: FileInfo) { Sane(f) && f.ftype == TypeFile && !f.deleted }

  /** f loses to g. */
  predicate Beaten(N: Naming, f: FileInfo, g: FileInfo)
  {
    Live(f) && Sane(g) && Regular(g) && f.path == g.path && InConflict(f, g) && !NamingFails(N, f, g) && Loser(f, g) == f
  }

  /** f loses to g, and a leaf e of other content is at the path of f's copy. */
  predicate CopyInTheWay(N: Naming, f: FileInfo, g: FileInfo, e: FileInfo)
  {
    && Beaten(N, f, g) && ConflictName(N, f, LoserAuthor(f, g)) == Some(e.path)
    && Live(e) && Named(f.path) && Named(e.path) && f.path != e.path
    && e.contentHash != f.contentHash && e.contentHash != g.contentHash
  }

  function Two(f: FileInfo, e: FileInfo): (A: Record) { map[f.path := f, e.path := e] }

  lemma {:induction false} NamesDoNotBlock(p: Path, q: Path)
    requires Named(p) && Named(q) && p != q
    ensures !Blocks(Split(p), Split(q))
  {
    assert Split(p)[0] != Split(q)[0];
  }

  lemma {:induction false} TwoLeavesBuildable(f: FileInfo, e: FileInfo)
    requires f.path != e.path && Named(f.path) && Named(e.path)
    ensures BuildableSet(Two(f, e).Values)
  {
    assert Split(f.path)[0] != Split(e.path)[0];
    forall x | x in Two(f, e).Values ensures x == f || x == e {}
  }

  lemma {:induction false} TwoLeavesAsked(f: FileInfo, g: FileInfo, e: FileInfo, p: Path)
    requires f.path == g.path && f.path != e.path && Named(f.path) && Named(e.path) && (p == f.path || p == e.path)
    ensures Asked(Two(f, e), Two(g, e), p) && Asked(Two(g, e), Two(f, e), p)
  {
    TwoLeavesBuildable(f, e);
    TwoLeavesBuildable(g, e);
    NamesDoNotBlock(f.path, e.path);
    NamesDoNotBlock(e.path, f.path);
    forall q ensures !ClashesWith(Two(f, e), Two(g, e), p, q) { assert q in Two(f, e) ==> q in {f.path, e.path}; }
    AskedIsMutual(Two(f, e), Two(g, e), p);
  }

  /** The copy is the only one, and the losing path takes the winner on both sides. */
  lemma {:induction false} LoserMakesWay(N: Naming, f: FileInfo, g: FileInfo, e: FileInfo)
    requires CopyInTheWay(N, f, g, e)
    ensures var A, B, c := Two(f, e), Two(g, e), f.(path := e.path);
            && MadeAt(N, A, B, f.path) == Some(c)
            && Outcome(N, A, B, f.path) == Some(g) && Outcome(N, B, A, f.path) == Some(g)
  {
    var A, B, p := Two(f, e), Two(g, e), f.path;
    TwoLeavesAsked(f, g, e, p);
    OutcomeIsPair(N, A, B, p);
    OutcomeIsPair(N, B, A, p);
    OwnRegularIsHeld(A, p);
    ConflictRivals(f, g);
    ConflictIsMutual(f, g);
    ConflictSymmetric(N, f, g);
    LoserNext(N, OnRecord(N, A, Some(f), Some(g)), f, g);
    WinnerNext(N, OnRecord(N, B, Some(g), Some(f)), g, f);
  }

  lemma {:induction false} TwoIsSane(f: FileInfo, e: FileInfo)
    requires Sane(f) && Sane(e) && f.path != e.path
    ensures SaneRecord(Two(f, e)) && Two(f, e).Keys == {f.path, e.path}
    ensures Two(f, e)[f.path] == f && Two(f, e)[e.path] == e
  {
  }

  lemma {:induction false} NoConflictWithItself(N: Naming, e: FileInfo, c: FileInfo)
    ensures !CopyFor(N, e, e, c)
  {
  }

  lemma {:induction false} BystanderUncopied(N: Naming, A: Record, B: Record, q: Path, c: FileInfo)
    requires SaneRecord(A) && SaneRecord(B) && q in A && q in B && A[q] == B[q]
    ensures !Made(N, A, B, q, c)
  {
    NoConflictWithItself(N, A[q], c);
    if Made(N, A, B, q, c) { CopyFacts(N, A, B, q, c); }
  }

  lemma {:induction false} LosersCopy(N: Naming, f: FileInfo, g: FileInfo, e: FileInfo, c: FileInfo)
    requires CopyInTheWay(N, f, g, e) && CopyFor(N, f, g, c)
    ensures c == f.(path := e.path)
  {
    ConflictRivals(f, g);
    assert Winner(f, g) == g;
  }

  lemma {:induction false} MadeWhere(N: Naming, A: Record, B: Record, q: Path, c: FileInfo)
    requires SaneRecord(A) && SaneRecord(B) && Made(N, A, B, q, c)
    ensures q in A.Keys && q in B.Keys && CopyFor(N, A[q], B[q], c)
  {
    CopyFacts(N, A, B, q, c);
  }

  lemma {:induction false} NotMadeThere(N: Naming, A: Record, B: Record, e: Path, q: Path, c: FileInfo)
    requires SaneRecord(A) && SaneRecord(B) && e in A && e in B && A[e] == B[e] && Made(N, A, B, q, c)
    ensures q != e
  {
    BystanderUncopied(N, A, B, e, c);
  }

  lemma {:induction false} OtherOfTwo(s: set<Path>, p: Path, e: Path, q: Path)
    requires s == {p, e} && q in s && q != e
    ensures q == p
  {
  }

  lemma {:induction false} MadeAtOne(N: Naming, A: Record, B: Record, p: Path, e: Path, q: Path, c: FileInfo)
    requires SaneRecord(A) && SaneRecord(B) && A.Keys == {p, e} && B.Keys == {p, e} && A[e] == B[e] && Made(N, A, B, q, c)
    ensures q == p && CopyFor(N, A[p], B[p], c)
  {
    NotMadeThere(N, A, B, e, q, c);
    MadeWhere(N, A, B, q, c);
    OtherOfTwo(A.Keys, p, e, q);
  }

  lemma {:induction false} OnlyCopy(N: Naming, f: FileInfo, g: FileInfo, e: FileInfo, q: Path, c: FileInfo)
    requires CopyInTheWay(N, f, g, e) && Made(N, Two(f, e), Two(g, e), q, c)
    ensures c == f.(path := e.path)
  {
    TwoIsSane(f, e);
    TwoIsSane(g, e);
    MadeAtOne(N, Two(f, e), Two(g, e), f.path, e.path, q, c);
    LosersCopy(N, f, g, e, c);
  }

  lemma {:induction false} OneEntry(C: Record, q: Path, c: FileInfo)
    requires q in C && c.path == q && forall r | r in C :: C[r].path == r && C[r] == c
    ensures C.Keys == {q} && C[q] == c
  {
  }

  predicate OnlyOver(C: Record, e: FileInfo) { C.Keys == {e.path} && C[e.path].contentHash != e.contentHash }

  lemma {:induction false} CopyIsOver(N: Naming, f: FileInfo, g: FileInfo, e: FileInfo, C: Record)
    requires CopyInTheWay(N, f, g, e) && Minted(N, Two(f, e), Two(g, e), C)
    ensures OnlyOver(C, e)
  {
    var A, B, c := Two(f, e), Two(g, e), f.(path := e.path);
    LoserMakesWay(N, f, g, e);
    assert Made(N, A, B, f.path, c);
    forall q | q in C ensures C[q].path == q && C[q] == c {
      var p :| Made(N, A, B, p, C[q]);
      OnlyCopy(N, f, g, e, p, C[q]);
    }
    OneEntry(C, e.path, c);
  }

  lemma {:induction false} BystanderStays(N: Naming, f: FileInfo, g: FileInfo, e: FileInfo)
    requires CopyInTheWay(N, f, g, e)
    ensures Undominated(Two(f, e), Two(g, e), e.path) && MadeAt(N, Two(f, e), Two(g, e), e.path) == None
  {
    TwoLeavesAsked(f, g, e, e.path);
    OutcomeIsPair(N, Two(f, e), Two(g, e), e.path);
    LeqReflexive(e.version);
    AgreedRests(N, OnRecord(N, Two(f, e), Some(e), Some(e)), e, e);
  }

  lemma {:induction false} HomeIsTaken(N: Naming, f: FileInfo, g: FileInfo, e: FileInfo)
    requires CopyInTheWay(N, f, g, e)
    ensures Undominated(Two(f, e), Two(g, e), e.path) && !HomesFree(N, Two(f, e), Two(g, e))
  {
    var A, B, c := Two(f, e), Two(g, e), f.(path := e.path);
    LoserMakesWay(N, f, g, e);
    BystanderStays(N, f, g, e);
    HomeWithoutCopy(N, A, B, e.path);
    TwoIsSane(f, e);
    HomeTaken(N, A, B, f.path, c, e.path);
  }

  /** Both sides have e and a leaf at p, and take g for the latter. */
  ghost predicate GivesWay(N: Naming, A: Record, B: Record, p: Path, g: FileInfo, e: FileInfo)
  {
    && SaneRecord(A) && SaneRecord(B) && A.Keys == {p, e.path} && B.Keys == {p, e.path}
    && Outcome(N, A, B, p) == Some(g) && Outcome(N, B, A, p) == Some(g) && g.contentHash != e.contentHash
  }

  lemma {:induction false} MakesWay(N: Naming, f: FileInfo, g: FileInfo, e: FileInfo)
    requires CopyInTheWay(N, f, g, e)
    ensures GivesWay(N, Two(f, e), Two(g, e), f.path, g, e)
  {
    LoserMakesWay(N, f, g, e);
    TwoIsSane(f, e);
    TwoIsSane(g, e);
  }

  lemma {:induction false} Displaced(N: Naming, A: Record, B: Record, C: Record, p: Path, g: FileInfo, e: FileInfo)
    requires GivesWay(N, A, B, p, g, e) && OnlyOver(C, e)
    ensures Gone(Round(N, A, B) + C, Round(N, B, A) + C, e.contentHash)
  {
    ContentGone(N, A, B, C, p, g, e);
    ContentGone(N, B, A, C, p, g, e);
  }

  /** The copy is recorded over e, whose content is then gone from both records: its path was not free. */
  lemma {:induction false} CopyDisplaces(N: Naming, f: FileInfo, g: FileInfo, e: FileInfo, C: Record)
    requires CopyInTheWay(N, f, g, e) && Minted(N, Two(f, e), Two(g, e), C)
    ensures Undominated(Two(f, e), Two(g, e), e.path) && !HomesFree(N, Two(f, e), Two(g, e))
    ensures Gone(Round(N, Two(f, e), Two(g, e)) + C, Round(N, Two(g, e), Two(f, e)) + C, e.contentHash)
  {
    HomeIsTaken(N, f, g, e);
    CopyIsOver(N, f, g, e, C);
    MakesWay(N, f, g, e);
    Displaced(N, Two(f, e), Two(g, e), C, f.path, g, e);
  }

  lemma {:induction false} ContentGone(N: Naming, A: Record, B: Record, C: Record, p: Path, g: FileInfo, e: FileInfo)
    requires SaneRecord(A) && SaneRecord(B) && A.Keys == {p, e.path} && B.Keys == {p, e.path} && Outcome(N, A, B, p) == Some(g)
    requires C.Keys == {e.path} && C[e.path].contentHash != e.contentHash && g.contentHash != e.contentHash
    ensures forall q :: !LiveAt(Round(N, A, B) + C, q, e.contentHash)
  {
    RoundKeys(N, A, B);
    RoundAt(N, A, B, p);
    OverlaidGone(Round(N, A, B), C, p, g, e);
  }

  lemma {:induction false} OverlaidGone(R: Record, C: Record, p: Path, g: FileInfo, e: FileInfo)
    requires R.Keys <= {p, e.path} && Find(R, p) == Some(g) && g.contentHash != e.contentHash
    requires C.Keys == {e.path} && C[e.path].contentHash != e.contentHash
    ensures forall q :: !LiveAt(R + C, q, e.contentHash)
  {
    forall q ensures !LiveAt(R + C, q, e.contentHash) {
      assert q in R + C ==> q in {p, e.path};
    }
  }

  /** Device 1's second edit of a file, device 2's, and the copy of device 1's first edit, which lost within the same
      second: it has the name that the copy of the second is about to get. */
  function Mine(h: Digest): (f: FileInfo) { FileInfo(NAME, h, 0, 0, 5, [Counter(1, 2)], false, TypeFile) }
  function Yours(h: Digest): (f: FileInfo) { FileInfo(NAME, h, 0, 0, 7, [Counter(2, 1)], false, TypeFile) }
  function EarlierAt(p: Path, h: Digest): (f: FileInfo) { FileInfo(p, h, 0, 0, 3, [Counter(1, 1)], false, TypeFile) }
  function Earlier(h: Digest): (f: FileInfo) { EarlierAt(CopyPath(), h) }

  function CopyPath(): (p: Path) { NAME + (MARK + [0x30] + [DASH] + Hex(1, 16)) }

  lemma {:induction false} NameIsNamed()
    ensures Named(NAME)
  {
    NameIsGood();
    SplitOfName(NAME);
  }

  lemma {:induction false} SlashFree(p: Path)
    requires SLASH !in p && 0 < |p| <= 0xFFFF
    ensures Named(p)
  {
    SplitOfName(p);
  }

  lemma {:induction false} CopyIsNamed()
    ensures Named(CopyPath()) && CopyPath() != NAME
  {
    HexIsPlain(1, 16);
    assert |CopyPath()| == 1 + (|MARK| + 1 + 1 + 16);
    assert SLASH !in CopyPath();
    SlashFree(CopyPath());
  }

  lemma {:induction false} MarkedPlain(p: Path, m: Bytes)
    requires ExtLen(p) == 0
    ensures Marked(p, m) == p + m
  {
  }

  lemma {:induction false} NameHasNoExtension()
    ensures ExtLen(NAME) == 0
  {
    assert NAME[..0] == [];
    assert TailAfter(NAME, SLASH) == 1 && Base(NAME) == NAME && TailAfter(NAME, DOT) == 1;
  }

  lemma {:induction false} MiddleOfMine(h: Digest)
    ensures Middle(CLOCK, Mine(h), 1) == MARK + [0x30] + [DASH] + Hex(1, 16)
  {
  }

  lemma {:induction false} CopyGoesThere(h: Digest, k: Digest)
    ensures ConflictName(CLOCK, Mine(h), LoserAuthor(Mine(h), Yours(k))) == Some(CopyPath())
  {
    AuthorOfMine(h, k);
    RawNameIsMarked(CLOCK, Mine(h), 1);
    NameHasNoExtension();
    MiddleOfMine(h);
    MarkedPlain(NAME, Middle(CLOCK, Mine(h), 1));
  }

  lemma {:induction false} AuthorOfMine(h: Digest, k: Digest)
    ensures LoserAuthor(Mine(h), Yours(k)) == 1
  {
    assert AuthorOf([Counter(1, 2)], [Counter(2, 1)]) == Some(1) by { assert [Counter(1, 2)][..0] == []; }
  }

  lemma {:induction false} MineIsBeaten(h: Digest, k: Digest)
    requires h != ZeroDigest && k != ZeroDigest && h != k
    ensures Beaten(CLOCK, Mine(h), Yours(k)) && Winner(Mine(h), Yours(k)) == Yours(k)
  {
    Apart(2, 1);
    LeqReflexive([Counter(1, 1)]);
  }

  lemma {:induction false} EarlierIsLive(p: Path, e: Digest)
    requires e != ZeroDigest
    ensures Live(EarlierAt(p, e))
  {
    Apart(1, 1);
  }

  lemma {:induction false} InTheWay(N: Naming, f: FileInfo, g: FileInfo, e: FileInfo)
    requires Beaten(N, f, g) && ConflictName(N, f, LoserAuthor(f, g)) == Some(e.path)
    requires Live(e) && Named(f.path) && Named(e.path) && f.path != e.path
    requires e.contentHash != f.contentHash && e.contentHash != g.contentHash
    ensures CopyInTheWay(N, f, g, e)
  {
  }

  lemma {:induction false} EarlierIsInTheWay(h: Digest, k: Digest, e: Digest)
    requires h != ZeroDigest && k != ZeroDigest && e != ZeroDigest && h != k && e != h && e != k
    ensures CopyInTheWay(CLOCK, Mine(h), Yours(k), Earlier(e))
  {
    MineIsBeaten(h, k);
    CopyGoesThere(h, k);
    NameIsNamed();
    CopyIsNamed();
    EarlierIsLive(CopyPath(), e);
    InTheWay(CLOCK, Mine(h), Yours(k), Earlier(e));
  }

  /** Device 1 edits a file twice within a second and loses twice: the second copy is recorded over the first. */
  lemma {:induction false} ACopyIsOverwritten(h: Digest, k: Digest, e: Digest, C: Record)
    requires h != ZeroDigest && k != ZeroDigest && e != ZeroDigest && h != k && e != h && e != k
    requires Minted(CLOCK, Two(Mine(h), Earlier(e)), Two(Yours(k), Earlier(e)), C)
    ensures var A, B := Two(Mine(h), Earlier(e)), Two(Yours(k), Earlier(e));
            && Undominated(A, B, CopyPath()) && !HomesFree(CLOCK, A, B)
            && Gone(Round(CLOCK, A, B) + C, Round(CLOCK, B, A) + C, e)
  {
    EarlierIsInTheWay(h, k, e);
    CopyDisplaces(CLOCK, Mine(h), Yours(k), Earlier(e), C);
  }
}
