/** The conflict order (internal/reconcile/conflict.go). */
module Conflict {
  import opened Basics
  import opened Paths
  import opened VersionVectors
  import opened FileInfos

  /** The largest device at which a's vector exceeds b's: the author of a's divergence. */
  function AuthorOf(a: VV, b: VV): (r: Option<ShortID>)
  {
    if a == [] then None else
      var c, best := a[|a| - 1], AuthorOf(a[..|a| - 1], b);
      if c.value > At(b, c.id) && (best.None? || c.id > best.value) then Some(c.id) else best
  }

  method ComputeAuthor(a: FileInfo, b: FileInfo) returns (best: ShortID, found: bool)
    requires Canonical(b.version)
    ensures AuthorOf(a.version, b.version) == if found then Some(best) else None
  {
    best, found := 0, false;
    for i := 0 to |a.version|
      invariant AuthorOf(a.version[..i], b.version) == if found then Some(best) else None
    {
      var c := a.version[i];
      assert a.version[..i + 1][..i] == a.version[..i];
      var n := Get(b.version, c.id);
      if c.value > n {
        if !found || c.id > best { best, found := c.id, true; }
      }
    }
    assert a.version[..|a.version|] == a.version;
  }

  /** aWins: newer mtime, else smaller author, else smaller content hash. */
  predicate AWins(a: FileInfo, b: FileInfo)
  {
    if a.mtime != b.mtime then a.mtime > b.mtime
    else
      var x, y := AuthorOf(a.version, b.version), AuthorOf(b.version, a.version);
      if x.Some? && y.Some? && x.value != y.value then x.value < y.value
      else Less(a.contentHash, b.contentHash)
  }

  function Winner(a: FileInfo, b: FileInfo): FileInfo { if AWins(a, b) then a else b }
  function Loser(a: FileInfo, b: FileInfo): FileInfo { if AWins(a, b) then b else a }

  // ---- the author, pointwise ----

  lemma {:induction false} AuthorMeaning(a: VV, b: VV)
    ensures var r := AuthorOf(a, b);
            && (r.Some? ==> (exists i | 0 <= i < |a| :: a[i].id == r.value && a[i].value > At(b, a[i].id))
                            && forall i | 0 <= i < |a| && a[i].value > At(b, a[i].id) :: a[i].id <= r.value)
            && (r.None? <==> Leq(a, b))
  {
    if a != [] {
      var n := |a| - 1;
      AuthorMeaning(a[..n], b);
      assert forall i | 0 <= i < n :: a[..n][i] == a[i];
      var r := AuthorOf(a, b);
      if r.Some? && AuthorOf(a[..n], b) == r {
        var i :| 0 <= i < n && a[..n][i].id == r.value && a[..n][i].value > At(b, a[..n][i].id);
        assert a[i].id == r.value;
      }
      if Leq(a, b) {
        forall i | 0 <= i < n ensures a[..n][i].value <= At(b, a[..n][i].id) { assert a[i].value <= At(b, a[i].id); }
      }
    }
  }

  lemma {:induction false} AuthorIsAbove(a: VV, b: VV, id: ShortID)
    requires At(a, id) > At(b, id)
    ensures AuthorOf(a, b).Some? && id <= AuthorOf(a, b).value
  {
    AuthorMeaning(a, b);
    var k := AtPositive(a, id);
    assert a[k].value > At(b, a[k].id);
  }

  lemma {:induction false} AuthorPointwise(a: VV, b: VV)
    requires Canonical(a) && AuthorOf(a, b).Some?
    ensures var d := AuthorOf(a, b).value; At(a, d) > At(b, d) && forall id: ShortID | id > d :: At(a, id) <= At(b, id)
  {
    AuthorMeaning(a, b);
    var d := AuthorOf(a, b).value;
    var i :| 0 <= i < |a| && a[i].id == d && a[i].value > At(b, a[i].id);
    AtMember(a, i);
    forall id: ShortID | id > d ensures At(a, id) <= At(b, id) {
      if At(a, id) > At(b, id) { AuthorIsAbove(a, b, id); }
    }
  }

  // ---- the vector tiebreak as an order ----

  /** At the highest device where the vectors differ, a is the lower one. */
  ghost predicate LowerAt(a: VV, b: VV, d: ShortID)
  {
    At(a, d) < At(b, d) && forall id: ShortID | id > d :: At(a, id) == At(b, id)
  }

  ghost predicate VecLess(a: VV, b: VV) { exists d: ShortID :: LowerAt(a, b, d) }

  lemma {:induction false} VecLessStrict(a: VV, b: VV)
    requires VecLess(a, b)
    ensures !VecLess(b, a) && a != b
  {
    var d: ShortID :| LowerAt(a, b, d);
    forall e: ShortID ensures !LowerAt(b, a, e) {}
  }

  lemma {:induction false} VecLessTransitive(a: VV, b: VV, c: VV)
    requires VecLess(a, b) && VecLess(b, c)
    ensures VecLess(a, c)
  {
    var d: ShortID :| LowerAt(a, b, d);
    var e: ShortID :| LowerAt(b, c, e);
    var m := if d < e then e else d;
    assert LowerAt(a, c, m);
  }

  /** The author tiebreak compares two concurrent vectors at the highest device where they differ. */
  lemma {:induction false} AuthorsCompareHighest(a: VV, b: VV)
    requires Canonical(a) && Canonical(b) && Order(a, b) == Concurrent
    ensures AuthorOf(a, b).Some? && AuthorOf(b, a).Some? && AuthorOf(a, b) != AuthorOf(b, a)
    ensures AuthorOf(a, b).value < AuthorOf(b, a).value <==> VecLess(a, b)
    ensures AuthorOf(b, a).value < AuthorOf(a, b).value <==> VecLess(b, a)
  {
    AuthorMeaning(a, b);
    AuthorMeaning(b, a);
    AuthorPointwise(a, b);
    AuthorPointwise(b, a);
    var x, y := AuthorOf(a, b).value, AuthorOf(b, a).value;
    if x < y {
      assert LowerAt(a, b, y);
      VecLessStrict(a, b);
    } else {
      assert x > y by { assert x != y; }
      assert LowerAt(b, a, x);
      VecLessStrict(b, a);
    }
  }

  // ---- aWins is a strict total order on rivals ----

  predicate Rivals(a: FileInfo, b: FileInfo)
  {
    && Canonical(a.version) && Canonical(b.version)
    && Order(a.version, b.version) in {Concurrent, Equal}
    && (Order(a.version, b.version) == Equal ==> a.contentHash != b.contentHash)
  }

  /** The order aWins decides, free of the pairwise author computation. */
  ghost predicate Beats(a: FileInfo, b: FileInfo)
  {
    a.mtime > b.mtime
    || (a.mtime == b.mtime
        && (VecLess(a.version, b.version) || (a.version == b.version && Less(a.contentHash, b.contentHash))))
  }

  lemma {:induction false} BeatsTransitive(a: FileInfo, b: FileInfo, c: FileInfo)
    requires Beats(a, b) && Beats(b, c)
    ensures Beats(a, c)
  {
    if a.mtime == b.mtime == c.mtime {
      if VecLess(a.version, b.version) && VecLess(b.version, c.version) {
        VecLessTransitive(a.version, b.version, c.version);
      }
      if Less(a.contentHash, b.contentHash) && Less(b.contentHash, c.contentHash) {
        LessTransitive(a.contentHash, b.contentHash, c.contentHash);
      }
    }
  }

  lemma {:induction false} AWinsIsBeats(a: FileInfo, b: FileInfo)
    requires Rivals(a, b)
    ensures AWins(a, b) <==> Beats(a, b)
    ensures AWins(a, b) <==> !AWins(b, a)
    ensures AWins(a, b) <==> !Beats(b, a)
  {
    OrderPointwise(a.version, b.version);
    LessTotal(a.contentHash, b.contentHash);
    if a.version == b.version {
      AuthorMeaning(a.version, b.version);
      if VecLess(a.version, b.version) { VecLessStrict(a.version, b.version); }
    } else {
      AuthorsCompareHighest(a.version, b.version);
      if VecLess(a.version, b.version) { VecLessStrict(a.version, b.version); }
      if VecLess(b.version, a.version) { VecLessStrict(b.version, a.version); }
    }
  }

  ghost predicate Family(fs: seq<FileInfo>)
  {
    forall f, g | f in fs && g in fs && f != g :: Rivals(f, g)
  }

  /** On a family of rivals aWins is transitive, asymmetric and total. */
  lemma {:induction false} AWinsStrictTotalOrder(a: FileInfo, b: FileInfo, c: FileInfo)
    requires Rivals(a, b) && Rivals(b, c) && (a != c ==> Rivals(a, c))
    ensures AWins(a, b) != AWins(b, a)
    ensures AWins(a, b) && AWins(b, c) ==> a != c && AWins(a, c)
  {
    AWinsIsBeats(a, b);
    AWinsIsBeats(b, c);
    if AWins(a, b) && AWins(b, c) {
      BeatsTransitive(a, b, c);
      if a != c { AWinsIsBeats(a, c); }
    }
  }

  /** Pairwise resolution of n versions, in the order they are met. */
  function Tournament(fs: seq<FileInfo>): (w: FileInfo)
    requires fs != []
  {
    if |fs| == 1 then fs[0] else Winner(Tournament(fs[..|fs| - 1]), fs[|fs| - 1])
  }

  lemma {:induction false} WinnerBeats(t: FileInfo, x: FileInfo, f: FileInfo)
    requires Rivals(t, x) && f != Winner(t, x)
    requires f == t || f == x || (Rivals(t, f) && Rivals(x, f) && AWins(t, f))
    ensures AWins(Winner(t, x), f)
  {
    AWinsIsBeats(t, x);
    AWinsIsBeats(x, t) by { RivalsSymmetric(t, x); }
    if f != t && f != x && Winner(t, x) == x {
      AWinsIsBeats(t, f);
      BeatsTransitive(x, t, f);
      AWinsIsBeats(x, f);
    }
  }

  lemma {:induction false} RivalsSymmetric(a: FileInfo, b: FileInfo)
    requires Rivals(a, b)
    ensures Rivals(b, a)
  {
  }

  lemma {:induction false} InitAndLast<T>(fs: seq<T>)
    requires fs != []
    ensures forall f :: f in fs <==> f in fs[..|fs| - 1] || f == fs[|fs| - 1]
  {
    assert fs == fs[..|fs| - 1] + [fs[|fs| - 1]];
  }

  lemma {:induction false} TournamentBeatsAll(fs: seq<FileInfo>)
    requires fs != [] && Family(fs)
    ensures Tournament(fs) in fs
    ensures forall f | f in fs && f != Tournament(fs) :: AWins(Tournament(fs), f)
  {
    if |fs| > 1 {
      var init, x := fs[..|fs| - 1], fs[|fs| - 1];
      InitAndLast(fs);
      TournamentBeatsAll(init);
      var t := Tournament(init);
      if t != x {
        forall f | f in fs && f != Winner(t, x) ensures AWins(Winner(t, x), f) { WinnerBeats(t, x, f); }
      }
    }
  }

  /** An n-way conflict has one winner, whatever the order in which its versions meet. */
  lemma {:induction false} TournamentOrderIrrelevant(fs: seq<FileInfo>, gs: seq<FileInfo>)
    requires fs != [] && gs != [] && Family(fs) && Family(gs)
    requires forall f :: f in fs <==> f in gs
    ensures Tournament(fs) == Tournament(gs)
  {
    TournamentBeatsAll(fs);
    TournamentBeatsAll(gs);
    var v, w := Tournament(fs), Tournament(gs);
    if v != w { AWinsIsBeats(v, w); }
  }

  // ---- the conflict copy's name ----

  /** The time format and CanonicalizeSlash are not modelled: any functions will do. */
  datatype Naming = Naming(stamp: int -> Bytes, canon: Path -> Option<Path>)

  /** Length of the suffix of p after its last occurrence of c; |p| when there is none. */
  function TailAfter(p: Bytes, c: Byte): (n: nat)
    ensures n <= |p|
  {
    if p == [] || p[|p| - 1] == c then 0 else 1 + TailAfter(p[..|p| - 1], c)
  }

  /** %016x */
  function Hex(n: nat, w: nat): (s: Bytes)
    ensures |s| == w
  {
    if w == 0 then [] else Hex(n / 16, w - 1) + [HexDigit(n % 16, LOWER_A)]
  }

  const MARK: Bytes := [0x2E, 0x73, 0x79, 0x6E, 0x63, 0x2D, 0x63, 0x6F, 0x6E, 0x66, 0x6C, 0x69, 0x63, 0x74, 0x2D] // .sync-conflict-
  const DASH: Byte := 0x2D
  const NANOS := 1_000_000_000

  /** The last component of a path. */
  function Base(p: Path): (b: Bytes) { p[|p| - TailAfter(p, SLASH)..] }

  /** How much of a path its extension takes: from the last dot of its last component on. */
  function ExtLen(p: Path): (n: nat)
    ensures n <= |p|
  {
    var afterDot := TailAfter(Base(p), DOT);
    if afterDot == |Base(p)| then 0 else afterDot + 1
  }

  /** The path up to its extension, mark, whole-second stamp, author, extension; before canonicalisation. */
  function RawName(N: Naming, loser: FileInfo, author: ShortID): (r: Path)
  {
    var p, n := loser.path, |loser.path| - ExtLen(loser.path);
    p[..n] + MARK + N.stamp(loser.mtime / NANOS) + [DASH] + Hex(author, 16) + p[n..]
  }

  function ConflictName(N: Naming, loser: FileInfo, author: ShortID): (r: Option<Path>)
  {
    N.canon(RawName(N, loser, author))
  }

  /** The copy's key is new whenever canonicalisation leaves the minted name as it is. */
  lemma {:induction false} CopyNameIsNew(N: Naming, loser: FileInfo, author: ShortID)
    requires N.canon(RawName(N, loser, author)) == Some(RawName(N, loser, author))
    ensures ConflictName(N, loser, author).Some? && ConflictName(N, loser, author).value != loser.path
  {
    assert |RawName(N, loser, author)| > |loser.path|;
  }

  function Pow16(w: nat): (p: nat) { if w == 0 then 1 else 16 * Pow16(w - 1) }

  lemma {:induction false} HexInjective(n: nat, m: nat, w: nat)
    requires n < Pow16(w) && m < Pow16(w)
    ensures Hex(n, w) == Hex(m, w) <==> n == m
  {
    if w > 0 && Hex(n, w) == Hex(m, w) {
      assert Hex(n, w)[..w - 1] == Hex(n / 16, w - 1) && Hex(m, w)[..w - 1] == Hex(m / 16, w - 1);
      assert Hex(n, w)[w - 1] == HexDigit(n % 16, LOWER_A) && Hex(m, w)[w - 1] == HexDigit(m % 16, LOWER_A);
      HexInjective(n / 16, m / 16, w - 1);
    }
  }

  lemma {:induction false} HexWidth()
    ensures Pow16(16) == TWO64
  {
    assert Pow16(4) == 0x1_0000;
    assert Pow16(8) == 0x1_0000 * 0x1_0000 by { assert Pow16(6) == 256 * Pow16(4); }
    assert Pow16(12) == 0x1_0000 * Pow16(8) by { assert Pow16(10) == 256 * Pow16(8); }
    assert Pow16(16) == 0x1_0000 * Pow16(12) by { assert Pow16(14) == 256 * Pow16(12); }
  }

  lemma {:induction false} MiddlesApart(h: Bytes, s: Bytes, t: Bytes, x: Bytes, y: Bytes, e: Bytes)
    requires |s| == |t| && |x| == |y|
    ensures h + s + [DASH] + x + e == h + t + [DASH] + y + e <==> s == t && x == y
  {
    Parts(h, s, [DASH], x, e);
    Parts(h, t, [DASH], y, e);
  }

  lemma {:induction false} RawNamesApart(N: Naming, f: FileInfo, g: FileInfo, a: ShortID, b: ShortID)
    requires f.path == g.path && |N.stamp(f.mtime / NANOS)| == |N.stamp(g.mtime / NANOS)|
    ensures RawName(N, f, a) == RawName(N, g, b) <==> N.stamp(f.mtime / NANOS) == N.stamp(g.mtime / NANOS) && a == b
  {
    var p, n := f.path, |f.path| - ExtLen(f.path);
    MiddlesApart(p[..n] + MARK, N.stamp(f.mtime / NANOS), N.stamp(g.mtime / NANOS), Hex(a, 16), Hex(b, 16), p[n..]);
    HexWidth();
    HexInjective(a, b, 16);
  }

  /** What the format YYYYMMDD-HHMMSS does for every second an int64 of nanoseconds can reach (years 1677 to 2262):
      the width is fixed and different seconds read differently. */
  ghost predicate TellsSeconds(N: Naming)
  {
    forall f: I64, g: I64 ::
      && |N.stamp(f / NANOS)| == |N.stamp(g / NANOS)|
      && (N.stamp(f / NANOS) == N.stamp(g / NANOS) ==> f / NANOS == g / NANOS)
  }

  /** Copies of one path get one name exactly when their mtimes fall in one second and their authors are the same. */
  lemma {:induction false} CopiesAreNamedApart(N: Naming, f: FileInfo, g: FileInfo, a: ShortID, b: ShortID)
    requires f.path == g.path && TellsSeconds(N)
    ensures RawName(N, f, a) == RawName(N, g, b) <==> f.mtime / NANOS == g.mtime / NANOS && a == b
  {
    RawNamesApart(N, f, g, a, b);
  }

  // ---- copies of different paths ----

  lemma {:induction false} TailOfConcat(p: Bytes, q: Bytes, c: Byte)
    ensures TailAfter(p + q, c) == if c in q then TailAfter(q, c) else |q| + TailAfter(p, c)
  {
    if q == [] {
      assert p + q == p;
    } else {
      assert (p + q)[..|p + q| - 1] == p + q[..|q| - 1];
      assert q == q[..|q| - 1] + [q[|q| - 1]];
      TailOfConcat(p, q[..|q| - 1], c);
    }
  }

  lemma {:induction false} TailIsClean(p: Bytes, c: Byte)
    ensures c !in p[|p| - TailAfter(p, c)..]
    ensures c in p <==> TailAfter(p, c) < |p|
    ensures c in p ==> p[|p| - TailAfter(p, c) - 1] == c
  {
    if p != [] && p[|p| - 1] != c {
      var q := p[..|p| - 1];
      TailIsClean(q, c);
      assert p[|p| - TailAfter(p, c)..] == q[|q| - TailAfter(q, c)..] + [p[|p| - 1]];
      assert p == q + [p[|p| - 1]];
    }
  }

  lemma {:induction false} BaseOfConcat(p: Path, q: Bytes)
    requires SLASH !in q
    ensures Base(p + q) == Base(p) + q
  {
    TailOfConcat(p, q, SLASH);
  }

  /** What is appended without a slash: its own extension if it has a dot, else it lengthens the extension. */
  lemma {:induction false} ExtOfConcat(p: Path, q: Bytes)
    requires SLASH !in q
    ensures ExtLen(p + q) == if DOT in q then TailAfter(q, DOT) + 1 else if ExtLen(p) > 0 then |q| + ExtLen(p) else 0
  {
    BaseOfConcat(p, q);
    TailOfConcat(Base(p), q, DOT);
    TailIsClean(q, DOT);
  }

  /** An extension is a dot and what follows it. */
  predicate IsExtension(e: Bytes) { e != [] && SLASH !in e && TailAfter(e, DOT) == |e| - 1 }

  lemma {:induction false} LastDotOn(b: Bytes, k: nat)
    requires SLASH !in b && k + TailAfter(b, DOT) + 1 == |b|
    ensures IsExtension(b[k..])
  {
    TailIsClean(b, DOT);
    assert b == b[..k] + b[k..];
    assert b[k..][0] == DOT;
    TailOfConcat(b[..k], b[k..], DOT);
  }

  lemma {:induction false} ExtIsExtension(p: Path)
    requires ExtLen(p) > 0
    ensures IsExtension(p[|p| - ExtLen(p)..])
  {
    var k := |Base(p)| - ExtLen(p);
    TailIsClean(p, SLASH);
    LastDotOn(Base(p), k);
    assert p[|p| - ExtLen(p)..] == Base(p)[k..];
  }

  /** What the copy's name puts between the loser's path and its extension. */
  function Middle(N: Naming, loser: FileInfo, author: ShortID): (m: Bytes)
  {
    MARK + N.stamp(loser.mtime / NANOS) + [DASH] + Hex(author, 16)
  }

  /** Stamps of YYYYMMDD-HHMMSS have no dot and no slash. */
  ghost predicate PlainStamps(N: Naming)
  {
    forall t: I64 :: DOT !in N.stamp(t / NANOS) && SLASH !in N.stamp(t / NANOS)
  }

  lemma {:induction false} HexIsPlain(n: nat, w: nat)
    ensures DOT !in Hex(n, w) && SLASH !in Hex(n, w)
  {
    if w > 0 { HexIsPlain(n / 16, w - 1); }
  }

  lemma {:induction false} MiddleIsExtension(N: Naming, f: FileInfo, a: ShortID)
    requires PlainStamps(N)
    ensures IsExtension(Middle(N, f, a))
  {
    var m := Middle(N, f, a);
    var rest := m[1..];
    HexIsPlain(a, 16);
    assert DOT !in rest && SLASH !in rest;
    assert m == [DOT] + rest;
    TailOfConcat([DOT], rest, DOT);
  }

  lemma {:induction false} ExtOfExtended(p: Path, e: Bytes)
    requires IsExtension(e)
    ensures ExtLen(p + e) == |e|
  {
    ExtOfConcat(p, e);
    TailIsClean(e, DOT);
  }

  /** A path with m put before its extension. */
  function Marked(p: Path, m: Bytes): (r: Path)
  {
    p[..|p| - ExtLen(p)] + m + p[|p| - ExtLen(p)..]
  }

  /** A marked path has the path's own extension, or else the mark itself as its extension. */
  lemma {:induction false} ExtOfMarked(p: Path, m: Bytes)
    requires IsExtension(m)
    ensures ExtLen(Marked(p, m)) == if ExtLen(p) > 0 then ExtLen(p) else |m|
  {
    var n := |p| - ExtLen(p);
    if ExtLen(p) > 0 {
      ExtIsExtension(p);
      ExtOfExtended(p[..n] + m, p[n..]);
    } else {
      assert Marked(p, m) == p + m;
      ExtOfExtended(p, m);
    }
  }

  lemma {:induction false} SameEnds(h: Bytes, m: Bytes, e: Bytes, k: Bytes, n: Bytes, d: Bytes)
    requires h + m + e == k + n + d && |m| == |n| && |e| == |d|
    ensures h + e == k + d
  {
    var x, y := h + m + e, k + n + d;
    assert h == x[..|h|] == y[..|k|] == k;
    assert e == x[|h| + |m|..] == y[|k| + |n|..] == d;
  }

  lemma {:induction false} LastOff(g: Bytes, m: Bytes, x: Bytes, e: Bytes)
    requires g + m == x + e && |m| == |e|
    ensures g == x
  {
    assert g == (g + m)[..|g|] == (x + e)[..|x|] == x;
  }

  lemma {:induction false} BothHaveExtensions(p: Path, m: Bytes, q: Path, k: Bytes)
    requires IsExtension(m) && IsExtension(k) && Marked(p, m) == Marked(q, k)
    ensures ExtLen(p) > 0 ==> ExtLen(q) > 0
  {
    ExtOfMarked(p, m);
    ExtOfMarked(q, k);
    if ExtLen(p) > 0 && ExtLen(q) == 0 {
      var n := |p| - ExtLen(p);
      assert Marked(q, k) == q + k;
      LastOff(q, k, p[..n] + m, p[n..]);
      ExtOfExtended(p[..n], m);
    }
  }

  lemma {:induction false} MarkedApart(p: Path, m: Bytes, q: Path, k: Bytes)
    requires IsExtension(m) && IsExtension(k) && |m| == |k| && Marked(p, m) == Marked(q, k)
    ensures p == q
  {
    BothHaveExtensions(p, m, q, k);
    BothHaveExtensions(q, k, p, m);
    ExtOfMarked(p, m);
    ExtOfMarked(q, k);
    var n, l := |p| - ExtLen(p), |q| - ExtLen(q);
    SameEnds(p[..n], m, p[n..], q[..l], k, q[l..]);
    assert p == p[..n] + p[n..] && q == q[..l] + q[l..];
  }

  lemma {:induction false} RawNameIsMarked(N: Naming, f: FileInfo, a: ShortID)
    ensures RawName(N, f, a) == Marked(f.path, Middle(N, f, a))
  {
  }

  /** Copies of different paths never get one name. */
  lemma {:induction false} PathsAreNamedApart(N: Naming, f: FileInfo, g: FileInfo, a: ShortID, b: ShortID)
    requires TellsSeconds(N) && PlainStamps(N) && RawName(N, f, a) == RawName(N, g, b)
    ensures f.path == g.path
  {
    RawNameIsMarked(N, f, a);
    RawNameIsMarked(N, g, b);
    MiddleIsExtension(N, f, a);
    MiddleIsExtension(N, g, b);
    MarkedApart(f.path, Middle(N, f, a), g.path, Middle(N, g, b));
  }

  function MaxShortID(v: VV): (m: ShortID)
  {
    if v == [] then 0 else
      var m := MaxShortID(v[..|v| - 1]);
      if v[|v| - 1].id > m then v[|v| - 1].id else m
  }

  method ComputeMaxShortID(v: VV) returns (m: ShortID)
    ensures m == MaxShortID(v)
    ensures forall i | 0 <= i < |v| :: v[i].id <= m
  {
    m := 0;
    for i := 0 to |v|
      invariant m == MaxShortID(v[..i]) && forall k | 0 <= k < i :: v[k].id <= m
    {
      assert v[..i + 1][..i] == v[..i];
      if v[i].id > m { m := v[i].id; }
    }
    assert v[..|v|] == v;
  }

  function LoserAuthor(l: FileInfo, w: FileInfo): (a: ShortID)
  {
    var a := AuthorOf(l.version, w.version); if a.Some? then a.value else MaxShortID(l.version)
  }

  /** The author in a copy's name: the highest device whose edits the winner lacks, or, when it lacks none, the highest
      device of the loser's vector. */
  lemma {:induction false} LoserAuthorMeaning(l: FileInfo, w: FileInfo)
    requires Canonical(l.version)
    ensures var a := LoserAuthor(l, w);
            if exists id: ShortID :: At(l.version, id) > At(w.version, id)
            then At(l.version, a) > At(w.version, a)
                 && forall id: ShortID | At(l.version, id) > At(w.version, id) :: id <= a
            else LargestIn(l.version, a)
  {
    var v, x := l.version, w.version;
    LargestDevice(v);
    if AuthorOf(v, x).Some? { AuthorPointwise(v, x); }
    forall id: ShortID | At(v, id) > At(x, id) ensures AuthorOf(v, x).Some? && id <= AuthorOf(v, x).value { AuthorIsAbove(v, x, id); }
  }

  ghost predicate LargestIn(v: VV, m: ShortID)
  {
    && (forall i | 0 <= i < |v| :: v[i].id <= m)
    && (if v == [] then m == 0 else exists i | 0 <= i < |v| :: v[i].id == m)
  }

  lemma {:induction false} LargestDevice(v: VV)
    ensures LargestIn(v, MaxShortID(v))
  {
    if v != [] {
      var n := |v| - 1;
      LargestDevice(v[..n]);
      assert forall i | 0 <= i < n :: v[..n][i] == v[i];
      if MaxShortID(v) != v[n].id {
        var i :| 0 <= i < n && v[..n][i].id == MaxShortID(v);
        assert v[i].id == MaxShortID(v);
      }
    }
  }

  /** dir/a.txt, stamped S, of author 0x1F: dir/a.sync-conflict-S-000000000000001f.txt */
  lemma {:induction false} CopyNameReads(N: Naming, loser: FileInfo)
    requires loser.path == DIR_A + TXT
    ensures RawName(N, loser, 0x1F)
            == [0x64, 0x69, 0x72, SLASH, 0x61]
               + [0x2E, 0x73, 0x79, 0x6E, 0x63, 0x2D, 0x63, 0x6F, 0x6E, 0x66, 0x6C, 0x69, 0x63, 0x74, 0x2D]
               + N.stamp(loser.mtime / 1_000_000_000) + [0x2D]
               + [0x30, 0x30, 0x30, 0x30, 0x30, 0x30, 0x30, 0x30, 0x30, 0x30, 0x30, 0x30, 0x30, 0x30, 0x31, 0x66]
               + [DOT, 0x74, 0x78, 0x74]
  {
    TxtIsExtension();
    ExtOfExtended(DIR_A, TXT);
    assert (DIR_A + TXT)[..5] == DIR_A && (DIR_A + TXT)[5..] == TXT;
    HexOf31();
    assert RawName(N, loser, 0x1F) == DIR_A + MARK + N.stamp(loser.mtime / NANOS) + [DASH] + Hex(0x1F, 16) + TXT;
  }

  lemma {:induction false} TxtIsExtension()
    ensures IsExtension(TXT)
  {
    TailOfConcat([DOT], TXT[1..], DOT);
    assert TXT == [DOT] + TXT[1..];
  }

  const DIR_A: Bytes := [0x64, 0x69, 0x72, SLASH, 0x61]
  const TXT: Bytes := [DOT, 0x74, 0x78, 0x74]

  lemma {:induction false} HexOfZero(w: nat)
    ensures |Hex(0, w)| == w && forall i | 0 <= i < w :: Hex(0, w)[i] == 0x30
  {
    if w > 0 { HexOfZero(w - 1); }
  }

  lemma {:induction false} HexOf31()
    ensures Hex(0x1F, 16) == [0x30, 0x30, 0x30, 0x30, 0x30, 0x30, 0x30, 0x30, 0x30, 0x30, 0x30, 0x30, 0x30, 0x30, 0x31, 0x66]
  {
    HexOfZero(14);
    assert Hex(1, 15) == Hex(0, 14) + [0x31];
    assert Hex(0x1F, 16) == Hex(1, 15) + [0x66];
  }
}
