/** Wire encodings of vectors and leaf records (internal/protocol/versionvector.go, internal/merkle/codec.go). */
module Wire {
  import opened Basics
  import opened Paths
  import opened VersionVectors
  import opened FileInfos
  import opened StructuralCodec

  /** CanonicalizeSlash is not modelled: any partial function on paths. */
  type Canon = Path -> Option<Path>

  // ---- the bounds-checked reader ----

  /** A big-endian decoder with a sticky error: after the first short read every read fails and yields zero. */
  class Reader {
    const b: Bytes
    var off: nat
    var err: bool

    ghost predicate Valid() reads this { off <= |b| }

    constructor (b: Bytes)
      ensures Valid() && this.b == b && off == 0 && !err
    {
      this.b, off, err := b, 0, false;
    }

    method Take(n: nat) returns (v: Bytes)
      requires Valid()
      modifies this
      ensures Valid() && (err <==> old(err) || old(off) + n > |b|)
      ensures if err then v == [] && off == old(off) else off == old(off) + n && v == b[old(off)..off]
    {
      if err { return []; }
      if off + n > |b| {
        err := true;
        return [];
      }
      v := b[off..off + n];
      off := off + n;
    }

    /** uN: a w-byte integer, 0 after an error. */
    method UInt(w: nat) returns (n: nat)
      requires Valid() && w > 0
      modifies this
      ensures Valid() && (err <==> old(err) || old(off) + w > |b|)
      ensures if err then n == 0 && off == old(off)
              else off == old(off) + w && n == UnBE(b[old(off)..off]) && n < Pow256(w)
    {
      var v := Take(w);
      if v == [] { return 0; }
      UnBEBound(v);
      return UnBE(v);
    }

    method Array32() returns (d: Digest)
      requires Valid()
      modifies this
      ensures Valid() && (err <==> old(err) || old(off) + 32 > |b|)
      ensures if err then off == old(off) else off == old(off) + 32 && d == b[old(off)..off]
    {
      var v := Take(32);
      if v == [] { return ZeroDigest; }
      return v;
    }

    method LenPrefixed() returns (v: Bytes)
      requires Valid()
      modifies this
      ensures Valid() && (err <==> old(err) || PrefixedEnd(b, old(off)).None?)
      ensures !err ==> off == PrefixedEnd(b, old(off)).value && v == b[old(off) + 2..off]
    {
      var n := UInt(2);
      v := Take(n);
    }

    method Rest() returns (v: Bytes)
      requires Valid()
      modifies this
      ensures Valid() && err == old(err) && (!err ==> v == b[old(off)..] && off == |b|)
    {
      if err { return []; }
      v := b[off..];
      off := |b|;
    }
  }

  /** Where a uint16-prefixed string starting at off ends; None when the bytes are short. */
  function PrefixedEnd(b: Bytes, off: nat): (r: Option<nat>)
    ensures r.Some? ==> off + 2 <= r.value <= |b|
  {
    if off + 2 > |b| then None
    else
      var n := UnBE(b[off..off + 2]);
      if off + 2 + n > |b| then None else Some(off + 2 + n)
  }

  // ---- version vectors ----

  function ParseCounters(b: Bytes, n: nat): (v: VV)
    requires |b| >= 16 * n
    ensures |v| == n
  {
    if n == 0 then []
    else
      UnBEBound(b[16 * n - 16..16 * n - 8]); UnBEBound(b[16 * n - 8..16 * n]); Widths();
      ParseCounters(b, n - 1) + [Counter(UnBE(b[16 * n - 16..16 * n - 8]), UnBE(b[16 * n - 8..16 * n]))]
  }

  /** The vector at the front of b and the bytes it takes; None unless it is complete and canonical. */
  function ParseVV(b: Bytes): (r: Option<(VV, nat)>)
  {
    if |b| < 2 then None
    else
      var n := UnBE(b[..2]);
      if |b| < 2 + 16 * n then None
      else
        var v := ParseCounters(b[2..], n);
        if Canonical(v) then Some((v, 2 + 16 * n)) else None
  }

  lemma {:induction false} OneCounter(c: Counter)
    ensures EncodeCounters([c]) == BE(c.id, 8) + BE(c.value, 8)
  {
    assert EncodeCounters([c]) == BE(c.id, 8) + BE(c.value, 8) + [];
  }

  lemma {:induction false} EncodeSnoc(init: VV, c: Counter)
    ensures EncodeCounters(init + [c]) == EncodeCounters(init) + (BE(c.id, 8) + BE(c.value, 8))
  {
    CountersAppend(init, [c]);
    OneCounter(c);
  }

  /** The parts of a prefix of b, in place. */
  lemma {:induction false} LastParts(b: Bytes, head: Bytes, x: Bytes, y: Bytes, k: nat)
    requires k + 16 <= |b| && b[..k + 16] == head + (x + y) && |head| == k && |x| == |y| == 8
    ensures b[..k] == head && b[k..k + 8] == x && b[k + 8..k + 16] == y
  {
    var p := head + (x + y);
    SliceOfPrefix(b, p, k, k + 8);
    SliceOfPrefix(b, p, k + 8, k + 16);
    assert b[..k] == p[..k];
  }

  /** b starts with the encoding of init and one more counter. */
  lemma {:induction false} StartsWithCounters(b: Bytes, init: VV, c: Counter, k: nat)
    requires k == 16 * |init| && k + 16 <= |b| && b[..k + 16] == EncodeCounters(init + [c])
    ensures b[..k] == EncodeCounters(init) && b[k..k + 8] == BE(c.id, 8) && b[k + 8..k + 16] == BE(c.value, 8)
  {
    EncodeSnoc(init, c);
    LastParts(b, EncodeCounters(init), BE(c.id, 8), BE(c.value, 8), k);
  }

  lemma {:induction false} ParseEncoded(b: Bytes, v: VV)
    requires 16 * |v| <= |b| && b[..16 * |v|] == EncodeCounters(v)
    ensures ParseCounters(b, |v|) == v
    decreases |v|
  {
    if v != [] {
      var init, c := v[..|v| - 1], v[|v| - 1];
      var k := 16 * |init|;
      assert v == init + [c] && 16 * |v| == k + 16;
      StartsWithCounters(b, init, c, k);
      ParseEncoded(b, init);
      ParseOneMore(b, init, |init| + 1, c);
    }
  }

  lemma {:induction false} ParseOneMore(b: Bytes, init: VV, n: nat, c: Counter)
    requires n > 0 && |b| >= 16 * n && ParseCounters(b, n - 1) == init
    requires b[16 * n - 16..16 * n - 8] == BE(c.id, 8) && b[16 * n - 8..16 * n] == BE(c.value, 8)
    ensures ParseCounters(b, n) == init + [c]
  {
    Widths();
    UnBEOfBE(c.id, 8);
    UnBEOfBE(c.value, 8);
  }

  lemma {:induction false} CountersAppend(a: VV, b: VV)
    ensures EncodeCounters(a + b) == EncodeCounters(a) + EncodeCounters(b)
  {
    if a == [] {
      assert a + b == b;
    } else {
      CountersAppend(a[1..], b);
      assert (a + b)[1..] == a[1..] + b;
      Assoc(BE(a[0].id, 8) + BE(a[0].value, 8), EncodeCounters(a[1..]), EncodeCounters(b));
    }
  }

  /** Decoding an encoded canonical vector gives it back, whatever follows it. */
  lemma {:induction false} VVRoundTrip(v: VV, rest: Bytes)
    requires Canonical(v) && |v| <= 0xFFFF
    ensures ParseVV(EncodeVV(v) + rest) == Some((v, |EncodeVV(v)|))
  {
    var b := EncodeVV(v) + rest;
    Widths();
    assert b[..2] == BE(|v|, 2);
    UnBEOfBE(|v|, 2);
    assert b[2..][..16 * |v|] == EncodeCounters(v);
    ParseEncoded(b[2..], v);
  }

  lemma {:induction false} ReencodeCounters(b: Bytes, n: nat)
    requires |b| >= 16 * n
    ensures EncodeCounters(ParseCounters(b, n)) == b[..16 * n]
  {
    if n > 0 {
      ReencodeCounters(b, n - 1);
      var x, y := b[16 * n - 16..16 * n - 8], b[16 * n - 8..16 * n];
      UnBEBound(x);
      UnBEBound(y);
      Widths();
      var c := Counter(UnBE(x), UnBE(y));
      CountersAppend(ParseCounters(b, n - 1), [c]);
      BEOfUnBE(x);
      BEOfUnBE(y);
      OneCounter(c);
      PrefixParts(b, 16 * (n - 1), 16 * n - 8, 16 * n);
    }
  }

  lemma {:induction false} BEOfUnBE(s: Bytes)
    ensures BE(UnBE(s), |s|) == s
  {
    if s != [] {
      BEOfUnBE(s[..|s| - 1]);
      assert s == s[..|s| - 1] + [s[|s| - 1]];
    }
  }

  /** Every accepted vector is canonical, and re-encodes to exactly the bytes it was read from. */
  lemma {:induction false} VVAcceptsOnlyCanonical(b: Bytes)
    requires ParseVV(b).Some?
    ensures var (v, n) := ParseVV(b).value; Canonical(v) && n <= |b| && EncodeVV(v) == b[..n]
  {
    var (v, n) := ParseVV(b).value;
    BEOfUnBE(b[..2]);
    ReencodeCounters(b[2..], |v|);
    assert b[..n] == b[..2] + b[2..][..16 * |v|];
  }

  /** Counter i read in place. */
  lemma {:induction false} NextCounter(b: Bytes, i: nat)
    requires |b| >= 18 + 16 * i
    ensures var id, val := UnBE(b[2 + 16 * i..10 + 16 * i]), UnBE(b[10 + 16 * i..18 + 16 * i]);
            && id < TWO64 && val < TWO64
            && ParseCounters(b[2..], i + 1) == ParseCounters(b[2..], i) + [Counter(id, val)]
  {
    var c := b[2..];
    assert c[16 * i..16 * i + 8] == b[2 + 16 * i..10 + 16 * i];
    assert c[16 * i + 8..16 * i + 16] == b[10 + 16 * i..18 + 16 * i];
    UnBEBound(b[2 + 16 * i..10 + 16 * i]);
    UnBEBound(b[10 + 16 * i..18 + 16 * i]);
    Widths();
  }

  /** A zero value, or an id that does not ascend, refuses the whole vector. */
  lemma {:induction false} BadCounterRefused(b: Bytes, n: nat, i: nat)
    requires |b| >= 2 + 16 * n && i < n && n == UnBE(b[..2])
    requires var v := ParseCounters(b[2..], i + 1); v[i].value == 0 || (i > 0 && v[i].id <= v[i - 1].id)
    ensures ParseVV(b) == None
  {
    var c := b[2..];
    ParsedAt(c, n, i);
    ParsedAt(c, i + 1, i);
    if i > 0 {
      ParsedAt(c, n, i - 1);
      ParsedAt(c, i + 1, i - 1);
    }
  }

  /** Counter i of a parse, in place. */
  lemma {:induction false} ParsedAt(b: Bytes, n: nat, i: nat)
    requires |b| >= 16 * n && i < n
    ensures ParseCounters(b, n)[i].id == UnBE(b[16 * i..16 * i + 8])
    ensures ParseCounters(b, n)[i].value == UnBE(b[16 * i + 8..16 * i + 16])
  {
    if i < n - 1 { ParsedAt(b, n - 1, i); }
  }

  lemma {:induction false} CanonicalSnoc(v: VV, c: Counter)
    requires Canonical(v) && c.value > 0 && (v != [] ==> v[|v| - 1].id < c.id)
    ensures Canonical(v + [c])
  {
  }

  /** One turn of the loop: the counter at off extends the canonical vector read so far, or the whole is refused. */
  lemma {:induction false} CounterStep(b: Bytes, n: nat, i: nat, off: nat, out: VV) returns (next: VV)
    requires |b| >= 2 + 16 * n && i < n && n == UnBE(b[..2]) && off == 2 + 16 * i
    requires out == ParseCounters(b[2..], i) && Canonical(out)
    ensures UnBE(b[off..off + 8]) < TWO64 && UnBE(b[off + 8..off + 16]) < TWO64
    ensures next == out + [Counter(UnBE(b[off..off + 8]), UnBE(b[off + 8..off + 16]))] == ParseCounters(b[2..], i + 1)
    ensures if next[i].value == 0 || (i > 0 && next[i].id <= out[i - 1].id) then ParseVV(b) == None else Canonical(next)
  {
    NextCounter(b, i);
    var c := Counter(UnBE(b[off..off + 8]), UnBE(b[off + 8..off + 16]));
    next := out + [c];
    if c.value == 0 || (i > 0 && c.id <= out[i - 1].id) {
      BadCounterRefused(b, n, i);
    } else {
      CanonicalSnoc(out, c);
    }
  }

  method DecodeVersionVector(b: Bytes) returns (r: Option<(VV, nat)>)
    ensures r == ParseVV(b)
  {
    if |b| < 2 { return None; }
    var count := UnBE(b[..2]);
    var need := 2 + count * 16;
    if |b| < need { return None; }
    if count == 0 { return Some(([], need)); }
    var out: VV := [];
    var off := 2;
    var prev: ShortID := 0;
    for i := 0 to count
      invariant off == 2 + 16 * i && out == ParseCounters(b[2..], i) && Canonical(out)
      invariant i > 0 ==> prev == out[i - 1].id
    {
      ghost var _ := CounterStep(b, count, i, off, out);
      var id := UnBE(b[off..off + 8]);
      var val := UnBE(b[off + 8..off + 16]);
      off := off + 16;
      if val == 0 { return None; }
      if i > 0 && id <= prev { return None; }
      prev := id;
      out := out + [Counter(id, val)];
    }
    return Some((out, need));
  }

  // ---- one leaf record ----

  function TypeByte(t: FileType): (b: Byte) { match t case TypeFile => 0 case TypeDir => 1 case TypeSymlink => 2 }
  function TypeOfByte(b: Byte): (t: FileType)
    requires b <= 2
  {
    if b == 0 then TypeFile else if b == 1 then TypeDir else TypeSymlink
  }

  /** int64 as its two's-complement uint64 and back. */
  function ToU64(x: I64): (n: U64) { if x < 0 then x + TWO64 else x }
  function ToI64(n: U64): (x: I64) { if n < TWO63 then n else n - TWO64 }

  function Fixed(fi: FileInfo): (s: Bytes)
    ensures |s| == 54
  {
    fi.contentHash + BE(fi.size, 8) + BE(fi.mode, 4) + BE(ToU64(fi.mtime), 8) + [TypeByte(fi.ftype)] + [Flag(fi.deleted)]
  }

  /** None: the path does not fit its uint16 length. */
  function EncodeInfo(fi: FileInfo): (r: Option<Bytes>)
  {
    if |fi.path| > 0xFFFF then None
    else Some(BE(|fi.path|, 2) + fi.path + Fixed(fi) + EncodeVV(fi.version))
  }

  /** The record in the 54 fixed bytes s, around path and version. */
  function FromFixed(path: Path, s: Bytes, version: VV): (fi: FileInfo)
    requires |s| == 54 && s[52] <= 2
  {
    UnBEBound(s[32..40]); UnBEBound(s[40..44]); UnBEBound(s[44..52]); Widths();
    FileInfo(path, s[..32], UnBE(s[32..40]), UnBE(s[40..44]), ToI64(UnBE(s[44..52])), version, s[53] == 1, TypeOfByte(s[52]))
  }

  function ParseInfo(canon: Canon, b: Bytes): (r: Option<(FileInfo, nat)>)
    ensures r.Some? ==> 0 < r.value.1 <= |b|
  {
    if PrefixedEnd(b, 0).None? then None
    else
      var e := PrefixedEnd(b, 0).value;
      if e + 54 > |b| then None
      else
        var s := b[e..e + 54];
        var vv := ParseVV(b[e + 54..]);
        var key := canon(b[2..e]);
        if s[52] > 2 || s[53] > 1 || vv.None? || key.None? then None
        else Some((FromFixed(key.value, s, vv.value.0), e + 54 + vv.value.1))
  }

  /** What a record must satisfy to travel unchanged. */
  predicate Sendable(canon: Canon, fi: FileInfo)
  {
    |fi.path| <= 0xFFFF && canon(fi.path) == Some(fi.path) && Canonical(fi.version) && |fi.version| <= 0xFFFF
  }

  lemma {:induction false} FixedParts(fi: FileInfo)
    ensures var s := Fixed(fi);
            && s[..32] == fi.contentHash && s[32..40] == BE(fi.size, 8) && s[40..44] == BE(fi.mode, 4)
            && s[44..52] == BE(ToU64(fi.mtime), 8) && s[52] == TypeByte(fi.ftype) && s[53] == Flag(fi.deleted)
  {
    Parts(fi.contentHash, BE(fi.size, 8), BE(fi.mode, 4), BE(ToU64(fi.mtime), 8), [TypeByte(fi.ftype)] + [Flag(fi.deleted)]);
    Assoc(fi.contentHash + BE(fi.size, 8) + BE(fi.mode, 4) + BE(ToU64(fi.mtime), 8), [TypeByte(fi.ftype)], [Flag(fi.deleted)]);
  }

  lemma {:induction false} FixedRoundTrip(fi: FileInfo)
    ensures Fixed(fi)[52] <= 2 && Fixed(fi)[53] <= 1
    ensures FromFixed(fi.path, Fixed(fi), fi.version) == fi
  {
    Widths();
    FixedParts(fi);
    UnBEOfBE(fi.size, 8);
    UnBEOfBE(fi.mode, 4);
    UnBEOfBE(ToU64(fi.mtime), 8);
  }

  /** What can be written down so that its parts can be read back; the path may be anything. */
  predicate Encodable(fi: FileInfo) { |fi.path| <= 0xFFFF && Canonical(fi.version) && |fi.version| <= 0xFFFF }

  /** A record whose parts stand in place in b arrives under its canonical path, and not at all if it has none. */
  lemma {:induction false} ParseInPlace(canon: Canon, b: Bytes, e: nat, fi: FileInfo, k: nat)
    requires PrefixedEnd(b, 0) == Some(e) && e + 54 <= |b| && b[2..e] == fi.path
    requires b[e..e + 54] == Fixed(fi) && ParseVV(b[e + 54..]) == Some((fi.version, k))
    ensures canon(fi.path).None? ==> ParseInfo(canon, b) == None
    ensures canon(fi.path).Some? ==> ParseInfo(canon, b) == Some((fi.(path := canon(fi.path).value), e + 54 + k))
  {
    FixedRoundTrip(fi);
  }

  /** Decoding an encoded record is refused exactly when canonicalisation refuses its path; otherwise it gives the
      record at the canonical path, and its own length. */
  lemma {:induction false} PathIsCanonicalised(canon: Canon, fi: FileInfo, rest: Bytes)
    requires Encodable(fi)
    ensures EncodeInfo(fi).Some?
    ensures ParseInfo(canon, EncodeInfo(fi).value + rest).None? <==> canon(fi.path).None?
    ensures canon(fi.path).Some? ==>
              ParseInfo(canon, EncodeInfo(fi).value + rest)
              == Some((fi.(path := canon(fi.path).value), |EncodeInfo(fi).value|))
  {
    PartsInPlace(fi, rest);
    VVRoundTrip(fi.version, rest);
    ParseInPlace(canon, EncodeInfo(fi).value + rest, 2 + |fi.path|, fi, |EncodeVV(fi.version)|);
  }

  lemma {:induction false} PartsInPlace(fi: FileInfo, rest: Bytes)
    requires |fi.path| <= 0xFFFF
    ensures var b, e := EncodeInfo(fi).value + rest, 2 + |fi.path|;
            && e + 54 <= |b| && PrefixedEnd(b, 0) == Some(e) && b[2..e] == fi.path && b[e..e + 54] == Fixed(fi)
            && b[e + 54..] == EncodeVV(fi.version) + rest
  {
    var prefix, fixed, tail := BE(|fi.path|, 2), Fixed(fi), EncodeVV(fi.version) + rest;
    Assoc(prefix + fi.path + fixed, EncodeVV(fi.version), rest);
    Parts(prefix, fi.path, fixed, tail, []);
    assert prefix + fi.path + fixed + tail + [] == prefix + fi.path + fixed + tail;
    Widths();
    UnBEOfBE(|fi.path|, 2);
    assert (EncodeInfo(fi).value + rest)[0..0 + 2] == prefix;
  }

  lemma {:induction false} InfoRoundTrip(canon: Canon, fi: FileInfo, rest: Bytes)
    requires Sendable(canon, fi)
    ensures ParseInfo(canon, EncodeInfo(fi).value + rest) == Some((fi, |EncodeInfo(fi).value|))
  {
    PathIsCanonicalised(canon, fi, rest);
  }

  lemma {:induction false} SingleByte(s: Bytes)
    requires |s| == 1
    ensures UnBE(s) == s[0]
  {
    assert s[..0] == [];
  }

  /** The fields of the 54 fixed bytes, read one after the other from e. */
  lemma {:induction false} FixedInPlace(b: Bytes, e: nat)
    requires e + 54 <= |b|
    ensures var s := b[e..e + 54];
            && s[..32] == b[e..e + 32] && s[32..40] == b[e + 32..e + 40] && s[40..44] == b[e + 40..e + 44]
            && s[44..52] == b[e + 44..e + 52]
            && s[52] == UnBE(b[e + 52..e + 53]) && s[53] == UnBE(b[e + 53..e + 54])
  {
    SubSlice(b, e, e + 54, 0, 32);
    SubSlice(b, e, e + 54, 32, 40);
    SubSlice(b, e, e + 54, 40, 44);
    SubSlice(b, e, e + 54, 44, 52);
    SingleByte(b[e + 52..e + 53]);
    SingleByte(b[e + 53..e + 54]);
  }

  /** Everything before the vector, with one look at the sticky error at the end. */
  method ReadFixed(rd: Reader) returns (path: Bytes, hash: Digest, size: U64, mode: U32, mtime: U64, ft: Byte, del: Byte)
    requires rd.Valid() && rd.off == 0 && !rd.err
    modifies rd
    ensures rd.Valid()
    ensures rd.err <==> PrefixedEnd(rd.b, 0).None? || PrefixedEnd(rd.b, 0).value + 54 > |rd.b|
    ensures !rd.err ==>
              var e := PrefixedEnd(rd.b, 0).value;
              var s := rd.b[e..e + 54];
              && rd.off == e + 54 && path == rd.b[2..e] && hash == s[..32] && size == UnBE(s[32..40])
              && mode == UnBE(s[40..44]) && mtime == UnBE(s[44..52]) && ft == s[52] && del == s[53]
  {
    Widths();
    path := rd.LenPrefixed();
    hash := rd.Array32();
    size := rd.UInt(8);
    mode := rd.UInt(4);
    mtime := rd.UInt(8);
    ft := rd.UInt(1);
    del := rd.UInt(1);
    if !rd.err { FixedInPlace(rd.b, PrefixedEnd(rd.b, 0).value); }
  }

  method DecodeFileInfo(canon: Canon, b: Bytes) returns (r: Option<(FileInfo, nat)>)
    ensures r == ParseInfo(canon, b)
  {
    var rd := new Reader(b);
    var pathBytes, hash, size, mode, mtime, ft, del := ReadFixed(rd);
    if rd.err { return None; }
    if ft > 2 { return None; }
    if del > 1 { return None; }
    var vv := DecodeVersionVector(b[rd.off..]);
    if vv.None? { return None; }
    var key := canon(pathBytes);
    if key.None? { return None; }
    return Some((FileInfo(key.value, hash, size, mode, ToI64(mtime), vv.value.0, del == 1, TypeOfByte(ft)),
                 rd.off + vv.value.1));
  }

  // ---- a counted list of records ----

  function EncodeList(fis: seq<FileInfo>): (r: Option<Bytes>)
  {
    if fis == [] then Some([])
    else
      var head, tail := EncodeInfo(fis[0]), EncodeList(fis[1..]);
      if head.None? || tail.None? then None else Some(head.value + tail.value)
  }

  /** count:uint32 and the records; None when a path is too long. */
  function EncodeInfos(fis: seq<FileInfo>): (r: Option<Bytes>)
  {
    var body := EncodeList(fis);
    if body.None? then None else Some(BE(|fis|, 4) + body.value)
  }

  /** count records from the front of b, which must end exactly there. */
  function ParseList(canon: Canon, b: Bytes, count: nat): (r: Option<seq<FileInfo>>)
    decreases count
  {
    if count == 0 then (if b == [] then Some([]) else None)
    else
      var head := ParseInfo(canon, b);
      if head.None? then None
      else
        var tail := ParseList(canon, b[head.value.1..], count - 1);
        if tail.None? then None else Some([head.value.0] + tail.value)
  }

  function ParseInfos(canon: Canon, b: Bytes): (r: Option<seq<FileInfo>>)
  {
    if |b| < 4 then None else ParseList(canon, b[4..], UnBE(b[..4]))
  }

  lemma {:induction false} ListCons(canon: Canon, f: FileInfo, head: Bytes, tail: Bytes, rest: seq<FileInfo>)
    requires head != [] && ParseInfo(canon, head + tail) == Some((f, |head|)) && ParseList(canon, tail, |rest|) == Some(rest)
    ensures ParseList(canon, head + tail, |rest| + 1) == Some([f] + rest)
  {
    assert (head + tail)[|head|..] == tail;
  }

  lemma {:induction false} ListRoundTrip(canon: Canon, fis: seq<FileInfo>)
    requires forall i | 0 <= i < |fis| :: Sendable(canon, fis[i])
    ensures EncodeList(fis).Some? && ParseList(canon, EncodeList(fis).value, |fis|) == Some(fis)
  {
    if fis != [] {
      ListRoundTrip(canon, fis[1..]);
      var head, tail := EncodeInfo(fis[0]).value, EncodeList(fis[1..]).value;
      InfoRoundTrip(canon, fis[0], tail);
      ListCons(canon, fis[0], head, tail, fis[1..]);
      HeadTail(fis);
    }
  }

  /** An index travels unchanged, with every byte consumed. */
  lemma {:induction false} IndexRoundTrip(canon: Canon, fis: seq<FileInfo>)
    requires |fis| < TWO32 && forall i | 0 <= i < |fis| :: Sendable(canon, fis[i])
    ensures EncodeInfos(fis).Some? && ParseInfos(canon, EncodeInfos(fis).value) == Some(fis)
  {
    ListRoundTrip(canon, fis);
    var b := EncodeInfos(fis).value;
    Widths();
    UnBEOfBE(|fis|, 4);
    assert b[..4] == BE(|fis|, 4) && b[4..] == EncodeList(fis).value;
  }

  lemma {:induction false} ListArrives(canon: Canon, fis: seq<FileInfo>)
    requires forall i | 0 <= i < |fis| :: Encodable(fis[i])
    ensures EncodeList(fis).Some? && AllArrive(canon, fis, ParseList(canon, EncodeList(fis).value, |fis|))
  {
    if fis != [] {
      ListArrives(canon, fis[1..]);
      FitsItsLength(fis[0]);
      OneMoreArrives(canon, fis, EncodeInfo(fis[0]).value, EncodeList(fis[1..]).value);
    }
  }

  lemma {:induction false} FitsItsLength(fi: FileInfo)
    requires Encodable(fi)
    ensures EncodeInfo(fi).Some?
  {
  }

  lemma {:induction false} OneMoreArrives(canon: Canon, fis: seq<FileInfo>, head: Bytes, tail: Bytes)
    requires fis != [] && Encodable(fis[0]) && EncodeInfo(fis[0]) == Some(head) && EncodeList(fis[1..]) == Some(tail)
    requires AllArrive(canon, fis[1..], ParseList(canon, tail, |fis| - 1))
    ensures EncodeList(fis) == Some(head + tail) && AllArrive(canon, fis, ParseList(canon, head + tail, |fis|))
  {
    InfoArrives(canon, fis[0], head, tail);
    ParseCons(canon, head, tail, |fis| - 1);
    ArriveCons(canon, fis, ParseList(canon, tail, |fis| - 1));
  }

  lemma {:induction false} InfoArrives(canon: Canon, fi: FileInfo, head: Bytes, rest: Bytes)
    requires Encodable(fi) && EncodeInfo(fi) == Some(head)
    ensures var f := Arrived(canon, fi); ParseInfo(canon, head + rest) == if f.None? then None else Some((f.value, |head|))
  {
    PathIsCanonicalised(canon, fi, rest);
  }

  /** What a list of records arrives as. */
  ghost predicate AllArrive(canon: Canon, fis: seq<FileInfo>, r: Option<seq<FileInfo>>)
  {
    && (r.None? <==> exists i :: 0 <= i < |fis| && canon(fis[i].path).None?)
    && (r.Some? ==> |r.value| == |fis| && forall i | 0 <= i < |fis| :: Some(r.value[i]) == Arrived(canon, fis[i]))
  }

  lemma {:induction false} ArriveCons(canon: Canon, fis: seq<FileInfo>, r: Option<seq<FileInfo>>)
    requires fis != [] && AllArrive(canon, fis[1..], r)
    ensures var f := Arrived(canon, fis[0]);
            AllArrive(canon, fis, if f.None? || r.None? then None else Some([f.value] + r.value))
  {
    RefusedSomewhere(canon, fis);
    forall i | 0 < i < |fis| ensures fis[i] == fis[1..][i - 1] {}
  }

  lemma {:induction false} ParseCons(canon: Canon, head: Bytes, tail: Bytes, count: nat)
    requires var p := ParseInfo(canon, head + tail); p.Some? ==> p.value.1 == |head|
    ensures var p, r := ParseInfo(canon, head + tail), ParseList(canon, tail, count);
            ParseList(canon, head + tail, count + 1) == if p.None? || r.None? then None else Some([p.value.0] + r.value)
  {
    assert (head + tail)[|head|..] == tail;
  }

  /** The record as the receiver takes it. */
  function Arrived(canon: Canon, fi: FileInfo): (r: Option<FileInfo>)
  {
    if canon(fi.path).None? then None else Some(fi.(path := canon(fi.path).value))
  }

  lemma {:induction false} RefusedSomewhere(canon: Canon, fis: seq<FileInfo>)
    requires fis != []
    ensures (exists i :: 0 <= i < |fis| && canon(fis[i].path).None?)
            <==> canon(fis[0].path).None? || exists i :: 0 <= i < |fis[1..]| && canon(fis[1..][i].path).None?
  {
    if i :| 0 <= i < |fis| && canon(fis[i].path).None? {
      if i > 0 { assert fis[1..][i - 1] == fis[i]; }
    }
    if i :| 0 <= i < |fis[1..]| && canon(fis[1..][i].path).None? { assert fis[i + 1] == fis[1..][i]; }
  }

  /** An encoded index is refused exactly when canonicalisation refuses one of its paths; otherwise every record
      arrives at its canonical path. */
  lemma {:induction false} IndexArrives(canon: Canon, fis: seq<FileInfo>)
    requires |fis| < TWO32 && forall i | 0 <= i < |fis| :: Encodable(fis[i])
    ensures EncodeInfos(fis).Some?
    ensures var r := ParseInfos(canon, EncodeInfos(fis).value);
            && (r.None? <==> exists i :: 0 <= i < |fis| && canon(fis[i].path).None?)
            && (r.Some? ==> |r.value| == |fis|
                            && forall i | 0 <= i < |fis| :: Some(r.value[i]) == Arrived(canon, fis[i]))
  {
    ListArrives(canon, fis);
    var b := EncodeInfos(fis).value;
    Widths();
    UnBEOfBE(|fis|, 4);
    assert b[..4] == BE(|fis|, 4) && b[4..] == EncodeList(fis).value;
  }

  /** p is what canonicalisation makes of some stretch of b. */
  predicate Image(canon: Canon, b: Bytes, p: Path) { exists i, j | 0 <= i <= j <= |b| :: canon(b[i..j]) == Some(p) }

  lemma {:induction false} ImageInSuffix(canon: Canon, b: Bytes, k: nat, p: Path)
    requires k <= |b| && Image(canon, b[k..], p)
    ensures Image(canon, b, p)
  {
    var i, j :| 0 <= i <= j <= |b[k..]| && canon(b[k..][i..j]) == Some(p);
    assert b[k..][i..j] == b[k + i..k + j];
  }

  lemma {:induction false} InfoImage(canon: Canon, b: Bytes)
    requires ParseInfo(canon, b).Some?
    ensures Image(canon, b, ParseInfo(canon, b).value.0.path) && Canonical(ParseInfo(canon, b).value.0.version)
  {
    var e := PrefixedEnd(b, 0).value;
    assert canon(b[2..e]) == Some(ParseInfo(canon, b).value.0.path);
  }

  /** Whatever bytes arrive, an accepted list has the announced length, canonical vectors only, and no path but what
      canonicalisation makes of bytes read. */
  lemma {:induction false} ListCanonical(canon: Canon, b: Bytes, count: nat)
    requires ParseList(canon, b, count).Some?
    ensures |ParseList(canon, b, count).value| == count
    ensures forall f | f in ParseList(canon, b, count).value :: Canonical(f.version) && Image(canon, b, f.path)
  {
    if count > 0 {
      var k := ParseInfo(canon, b).value.1;
      ListCanonical(canon, b[k..], count - 1);
      InfoImage(canon, b);
      forall f | f in ParseList(canon, b[k..], count - 1).value ensures Image(canon, b, f.path) {
        ImageInSuffix(canon, b, k, f.path);
      }
    }
  }

  /** What one more record adds to the encoding of the records from i on. */
  lemma {:induction false} EncodeStep(fis: seq<FileInfo>, i: nat, done: Bytes)
    requires i < |fis|
    ensures var enc, rest, all := EncodeInfo(fis[i]), EncodeList(fis[i + 1..]), EncodeList(fis[i..]);
            && (all.Some? <==> enc.Some? && rest.Some?)
            && (all.Some? ==> done + all.value == (done + enc.value) + rest.value)
  {
    assert fis[i..][1..] == fis[i + 1..];
    if EncodeList(fis[i..]).Some? { Assoc(done, EncodeInfo(fis[i]).value, EncodeList(fis[i + 1..]).value); }
  }

  method EncodeFileInfos(fis: seq<FileInfo>) returns (r: Option<Bytes>)
    ensures r == EncodeInfos(fis)
  {
    var buf := BE(|fis|, 4);
    assert fis[0..] == fis;
    for i := 0 to |fis|
      invariant EncodeInfos(fis).Some? <==> EncodeList(fis[i..]).Some?
      invariant EncodeInfos(fis).Some? ==> EncodeInfos(fis).value == buf + EncodeList(fis[i..]).value
    {
      EncodeStep(fis, i, buf);
      var enc := EncodeInfo(fis[i]);
      if enc.None? { return None; }
      buf := buf + enc.value;
    }
    assert buf + [] == buf;
    return Some(buf);
  }

  /** The records read so far, followed by what count records from off on decode to. */
  function Completed(canon: Canon, b: Bytes, off: nat, count: nat, out: seq<FileInfo>): (all: Option<seq<FileInfo>>)
    requires off <= |b|
  {
    var rest := ParseList(canon, b[off..], count);
    if rest.Some? then Some(out + rest.value) else None
  }

  /** Having read one record at off, the parse goes on at next with one more record out. */
  lemma {:induction false} ParseStep(canon: Canon, b: Bytes, off: nat, count: nat, out: seq<FileInfo>,
                  one: Option<(FileInfo, nat)>, next: nat, done: seq<FileInfo>)
    requires off <= |b| && count > 0
    requires one == ParseInfo(canon, b[off..])
    requires one.Some? ==> next == off + one.value.1 && done == out + [one.value.0]
    ensures one.None? ==> Completed(canon, b, off, count, out) == None
    ensures one.Some? ==>
              next <= |b| && Completed(canon, b, off, count, out) == Completed(canon, b, next, count - 1, done)
  {
    if one.Some? {
      assert b[off..][one.value.1..] == b[next..];
      var rest := ParseList(canon, b[next..], count - 1);
      if rest.Some? { Regroup(out, one.value.0, rest.value); }
    }
  }

  lemma {:induction false} ParseStarts(canon: Canon, b: Bytes)
    requires |b| >= 4
    ensures ParseInfos(canon, b) == Completed(canon, b, 4, UnBE(b[..4]), [])
  {
    if ParseInfos(canon, b).Some? { EmptyLeft(ParseInfos(canon, b).value); }
  }

  lemma {:induction false} ParseEnds(canon: Canon, b: Bytes, off: nat, out: seq<FileInfo>)
    requires off <= |b|
    ensures Completed(canon, b, off, 0, out) == if off == |b| then Some(out) else None
  {
    assert out + [] == out;
  }

  /** One turn of the loop: the next offset and the records so far, or a refusal of the whole list. */
  method DecodeNext(canon: Canon, b: Bytes, off: nat, out: seq<FileInfo>, ghost left: nat) returns (r: Option<(nat, seq<FileInfo>)>)
    requires off <= |b| && left > 0
    ensures r.None? ==> Completed(canon, b, off, left, out) == None
    ensures r.Some? ==> off <= r.value.0 <= |b|
                        && Completed(canon, b, off, left, out) == Completed(canon, b, r.value.0, left - 1, r.value.1)
  {
    var one := DecodeFileInfo(canon, b[off..]);
    if one.None? {
      ParseStep(canon, b, off, left, out, one, off, out);
      return None;
    }
    var next, done := off + one.value.1, out + [one.value.0];
    ParseStep(canon, b, off, left, out, one, next, done);
    return Some((next, done));
  }

  lemma {:induction false} AcceptedPaths(canon: Canon, b: Bytes)
    ensures ParseInfos(canon, b).Some? ==>
              forall f | f in ParseInfos(canon, b).value :: Canonical(f.version) && Image(canon, b, f.path)
  {
    if ParseInfos(canon, b).Some? {
      ListCanonical(canon, b[4..], UnBE(b[..4]));
      forall f | f in ParseInfos(canon, b).value ensures Image(canon, b, f.path) { ImageInSuffix(canon, b, 4, f.path); }
    }
  }

  method DecodeFileInfos(canon: Canon, b: Bytes) returns (r: Option<seq<FileInfo>>)
    ensures r == ParseInfos(canon, b)
    ensures r.Some? ==> forall f | f in r.value :: Canonical(f.version) && Image(canon, b, f.path)
  {
    AcceptedPaths(canon, b);
    if |b| < 4 { return None; }
    var count := UnBE(b[..4]);
    var off: nat := 4;
    var out: seq<FileInfo> := [];
    ghost var left: nat := count;
    ParseStarts(canon, b);
    for i := 0 to count
      invariant off <= |b| && left == count - i
      invariant ParseInfos(canon, b) == Completed(canon, b, off, left, out)
    {
      var next := DecodeNext(canon, b, off, out, left);
      if next.None? { return None; }
      off, out, left := next.value.0, next.value.1, left - 1;
    }
    ParseEnds(canon, b, off, out);
    if off != |b| { return None; }
    return Some(out);
  }
}
