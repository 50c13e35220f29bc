/** Canonical keys and their components (splitPathComponents of internal/merkle/tree.go). */
module Paths {
  import opened Basics

  type Path = Bytes
  type Name = Bytes

  const SLASH: Byte := 0x2F

  /** strings.Split(p, "/") */
  function Split(p: Path): (cs: seq<Name>)
    ensures |cs| >= 1
    ensures forall c | c in cs :: SLASH !in c
  {
    if p == [] then [[]]
    else if p[0] == SLASH then [[]] + Split(p[1..])
    else var r := Split(p[1..]); [[p[0]] + r[0]] + r[1..]
  }

  function Join(cs: seq<Name>): (p: Path)
  {
    if cs == [] then [] else if |cs| == 1 then cs[0] else cs[0] + [SLASH] + Join(cs[1..])
  }

  lemma {:induction false} JoinOfSplit(p: Path)
    ensures Join(Split(p)) == p
  {
    if p != [] {
      JoinOfSplit(p[1..]);
      var r := Split(p[1..]);
      if p[0] == SLASH {
        assert Split(p)[1..] == r;
      } else {
        assert Split(p)[1..] == r[1..];
      }
    }
  }

  lemma {:induction false} SplitOfName(c: Name)
    requires SLASH !in c
    ensures Split(c) == [c]
  {
    if c != [] {
      SplitOfName(c[1..]);
      assert [c[0]] + c[1..] == c;
    }
  }

  lemma {:induction false} SplitAtSlash(c: Name, p: Path)
    requires SLASH !in c
    ensures Split(c + [SLASH] + p) == [c] + Split(p)
  {
    var q := c + [SLASH] + p;
    if c == [] {
      assert q[1..] == p;
    } else {
      assert q[1..] == c[1..] + [SLASH] + p;
      SplitAtSlash(c[1..], p);
      assert [c[0]] + c[1..] == c;
    }
  }

  lemma {:induction false} SplitOfJoin(cs: seq<Name>)
    requires cs != [] && forall c | c in cs :: SLASH !in c
    ensures Split(Join(cs)) == cs
  {
    if |cs| == 1 {
      SplitOfName(cs[0]);
    } else {
      SplitAtSlash(cs[0], Join(cs[1..]));
      SplitOfJoin(cs[1..]);
    }
  }

  /** How diffNodes extends a path by one component. */
  function Child(p: Path, name: Name): (q: Path)
  {
    if p == [] then name else p + [SLASH] + name
  }

  lemma {:induction false} JoinSnoc(cs: seq<Name>, name: Name)
    requires forall c | c in cs :: c != []
    ensures Join(cs + [name]) == Child(Join(cs), name)
    ensures Join(cs) == [] <==> cs == []
  {
    if |cs| == 1 {
      assert cs[0] in cs;
      assert (cs + [name])[1..] == [name];
    } else if |cs| > 1 {
      assert forall c | c in cs[1..] :: c in cs;
      JoinSnoc(cs[1..], name);
      assert (cs + [name])[1..] == cs[1..] + [name];
    }
  }

  /** Components the structural grammar can encode: non-empty and at most 65535 bytes. */
  predicate GoodComps(cs: seq<Name>)
  {
    cs != [] && forall c | c in cs :: c != [] && |c| <= 0xFFFF
  }

  predicate GoodPath(p: Path)
  {
    p != [] && GoodComps(Split(p))
  }

  method SplitPathComponents(path: Path) returns (r: Option<seq<Name>>)
    ensures r == if GoodPath(path) then Some(Split(path)) else None
  {
    if path == [] { return None; }
    var comps := Split(path);
    for i := 0 to |comps|
      invariant forall k | 0 <= k < i :: comps[k] != [] && |comps[k]| <= 0xFFFF
    {
      if comps[i] == [] { return None; }
      if |comps[i]| > 0xFFFF { return None; }
    }
    return Some(comps);
  }
}

/** The leaf record (internal/merkle/fileinfo.go). */
module FileInfos {
  import opened Basics
  import opened Paths
  import opened VersionVectors

  datatype FileType = TypeFile | TypeDir | TypeSymlink

  datatype FileInfo = FileInfo(
    path: Path,
    contentHash: Digest,
    size: U64,
    mode: U32,
    mtime: I64,
    version: VV,
    deleted: bool,
    ftype: FileType)

  /** Any of the three execute bits of 0o111 (bits 0, 3 and 6). */
  predicate ExecBits(mode: U32)
  {
    mode % 2 == 1 || (mode / 8) % 2 == 1 || (mode / 64) % 2 == 1
  }

  function ModeByte(fi: FileInfo): (b: Byte)
  {
    (if fi.ftype == TypeFile && ExecBits(fi.mode) then 1 else 0) + (if fi.ftype == TypeSymlink then 2 else 0)
  }

  /** The execute digit of owner (2), group (1) or others (0): odd when the file may be executed. */
  function PermissionDigit(mode: U32, who: nat): (d: nat)
    requires who <= 2
  {
    (if who == 0 then mode else if who == 1 then mode / 8 else mode / 64) % 8
  }

  /** A regular file that its owner, its group or others may execute. */
  predicate Executable(fi: FileInfo)
  {
    fi.ftype == TypeFile && exists who: nat :: who <= 2 && PermissionDigit(fi.mode, who) in {1, 3, 5, 7}
  }

  /** The mode byte tells exactly links from other leaves, and executable files from the rest. */
  lemma {:induction false} ModeByteTells(f: FileInfo, g: FileInfo)
    ensures ModeByte(f) == ModeByte(g)
            <==> (f.ftype == TypeSymlink <==> g.ftype == TypeSymlink) && (Executable(f) <==> Executable(g))
  {
    ExecutableBits(f);
    ExecutableBits(g);
  }

  lemma {:induction false} ExecutableBits(f: FileInfo)
    ensures Executable(f) <==> f.ftype == TypeFile && ExecBits(f.mode)
    ensures ModeByte(f) == (if Executable(f) then 1 else if f.ftype == TypeSymlink then 2 else 0)
  {
    OddDigit(f.mode, 0);
    OddDigit(f.mode, 1);
    OddDigit(f.mode, 2);
    if ExecBits(f.mode) {
      var who := if f.mode % 2 == 1 then 0 else if (f.mode / 8) % 2 == 1 then 1 else 2;
      assert PermissionDigit(f.mode, who) in {1, 3, 5, 7};
    }
  }

  lemma {:induction false} OddDigit(mode: U32, who: nat)
    requires who <= 2
    ensures PermissionDigit(mode, who) in {1, 3, 5, 7}
            <==> (if who == 0 then mode else if who == 1 then mode / 8 else mode / 64) % 2 == 1
  {
  }

  /** A tombstone copy: no content, self's counter bumped. */
  function SetDeleted(fi: FileInfo, self: ShortID): (t: FileInfo)
  {
    FileInfo(fi.path, ZeroDigest, 0, fi.mode, fi.mtime, Bumped(fi.version, self), true, fi.ftype)
  }

  /** What the structural hash commits to. */
  datatype Essence = Essence(contentHash: Digest, modeByte: Byte, deleted: bool, version: VV)

  function EssenceOf(fi: FileInfo): (e: Essence)
  {
    Essence(fi.contentHash, ModeByte(fi), fi.deleted, fi.version)
  }
}

/** The byte strings that are hashed (internal/merkle/codec.go:23-65 and VersionVector.Encode). */
module StructuralCodec {
  import opened Basics
  import opened Paths
  import opened VersionVectors
  import opened FileInfos

  function EncodeCounters(v: VV): (s: Bytes)
    ensures |s| == 16 * |v|
  {
    if v == [] then [] else BE(v[0].id, 8) + BE(v[0].value, 8) + EncodeCounters(v[1..])
  }

  function EncodeVV(v: VV): (s: Bytes)
    ensures |s| == 2 + 16 * |v|
  {
    BE(|v|, 2) + EncodeCounters(v)
  }

  lemma {:induction false} BEInjective(x: nat, y: nat, w: nat)
    requires x < Pow256(w) && y < Pow256(w) && BE(x, w) == BE(y, w)
    ensures x == y
  {
    UnBEOfBE(x, w);
    UnBEOfBE(y, w);
  }

  lemma {:induction false} CountersInjective(a: VV, b: VV)
    requires EncodeCounters(a) == EncodeCounters(b)
    ensures a == b
  {
    assert |EncodeCounters(a)| == 16 * |a| && |EncodeCounters(b)| == 16 * |b|;
    if a != [] {
      var ea, eb := EncodeCounters(a), EncodeCounters(b);
      Widths();
      assert BE(a[0].id, 8) == ea[..8] == eb[..8] == BE(b[0].id, 8);
      assert BE(a[0].value, 8) == ea[8..16] == eb[8..16] == BE(b[0].value, 8);
      BEInjective(a[0].id, b[0].id, 8);
      BEInjective(a[0].value, b[0].value, 8);
      assert EncodeCounters(a[1..]) == ea[16..] == eb[16..] == EncodeCounters(b[1..]);
      CountersInjective(a[1..], b[1..]);
      assert a == [a[0]] + a[1..] && b == [b[0]] + b[1..];
    }
  }

  function Flag(b: bool): (x: Byte) { if b then 1 else 0 }

  function LeafEncoding(fi: FileInfo): (s: Bytes)
  {
    fi.contentHash + [ModeByte(fi)] + [Flag(fi.deleted)] + EncodeVV(fi.version)
  }

  /** The leaf encoding determines exactly the hashed fields (no bound on the vector's length is needed). */
  lemma {:induction false} LeafEncodingInjective(f: FileInfo, g: FileInfo)
    ensures LeafEncoding(f) == LeafEncoding(g) <==> EssenceOf(f) == EssenceOf(g)
  {
    var s, t := LeafEncoding(f), LeafEncoding(g);
    if s == t {
      assert f.contentHash == s[..32] == t[..32] == g.contentHash;
      assert ModeByte(f) == s[32] && ModeByte(g) == t[32];
      assert Flag(f.deleted) == s[33] && Flag(g.deleted) == t[33];
      assert EncodeCounters(f.version) == s[36..] == t[36..] == EncodeCounters(g.version);
      CountersInjective(f.version, g.version);
    }
  }

  datatype ChildEntry = ChildEntry(name: Name, hash: Digest)

  function EncodeEntry(e: ChildEntry): (s: Bytes)
    ensures |s| == 2 + |e.name| + 32
  {
    BE(|e.name|, 2) + e.name + e.hash
  }

  function EncodeEntries(es: seq<ChildEntry>): (s: Bytes)
  {
    if es == [] then [] else EncodeEntry(es[0]) + EncodeEntries(es[1..])
  }

  function NodeEncoding(es: seq<ChildEntry>): (s: Bytes)
  {
    BE(|es|, 4) + EncodeEntries(es)
  }

  /** Entries are self-delimiting: what follows an entry does not change how it reads. */
  lemma {:induction false} EntryPrefix(e: ChildEntry, f: ChildEntry, s: Bytes, t: Bytes)
    requires |e.name| <= 0xFFFF && |f.name| <= 0xFFFF
    requires EncodeEntry(e) + s == EncodeEntry(f) + t
    ensures e == f && s == t
  {
    var x, y := EncodeEntry(e) + s, EncodeEntry(f) + t;
    Widths();
    assert BE(|e.name|, 2) == x[..2] == y[..2] == BE(|f.name|, 2);
    BEInjective(|e.name|, |f.name|, 2);
    var n := |e.name|;
    assert e.name == x[2..2 + n] == y[2..2 + n] == f.name;
    assert e.hash == x[2 + n..34 + n] == y[2 + n..34 + n] == f.hash;
    assert s == x[34 + n..] == y[34 + n..] == t;
  }

  lemma {:induction false} EntriesInjective(a: seq<ChildEntry>, b: seq<ChildEntry>)
    requires forall e | e in a :: |e.name| <= 0xFFFF
    requires forall e | e in b :: |e.name| <= 0xFFFF
    requires EncodeEntries(a) == EncodeEntries(b)
    ensures a == b
  {
    if a != [] && b != [] {
      EntryPrefix(a[0], b[0], EncodeEntries(a[1..]), EncodeEntries(b[1..]));
      EntriesInjective(a[1..], b[1..]);
      assert a == [a[0]] + a[1..] && b == [b[0]] + b[1..];
    }
  }

  lemma {:induction false} NodeEncodingInjective(a: seq<ChildEntry>, b: seq<ChildEntry>)
    requires forall e | e in a :: |e.name| <= 0xFFFF
    requires forall e | e in b :: |e.name| <= 0xFFFF
    requires NodeEncoding(a) == NodeEncoding(b)
    ensures a == b
  {
    assert EncodeEntries(a) == NodeEncoding(a)[4..];
    assert EncodeEntries(b) == NodeEncoding(b)[4..];
    EntriesInjective(a, b);
  }
}
