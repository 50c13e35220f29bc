/** The agreed bytes: fixed encodings that both peers, and every hash, depend on. */
module WireFormat {
  import opened Basics
  import opened VersionVectors
  import opened Paths
  import opened FileInfos
  import opened StructuralCodec
  import opened Trees
  import opened Wire
  import opened Messages
  import opened Framing

  /** Byte i of w is the digit of that weight in base 256, the heaviest first. */
  lemma {:induction false} BigEndian(n: nat, w: nat, i: nat)
    requires i < w
    ensures BE(n, w)[i] == n / Pow256(w - 1 - i) % 256
  {
    if i < w - 1 {
      BigEndian(n / 256, w - 1, i);
      DivDiv(n, Pow256(w - 2 - i));
    }
  }

  lemma {:induction false} DivDiv(n: nat, p: nat)
    requires p > 0
    ensures n / 256 / p == n / (256 * p)
  {
    var q, r := n / (256 * p), n % (256 * p);
    assert n == q * (256 * p) + r;
    QuotientIs(n, 256, q * p + r / 256, r % 256);
    QuotientIs(q * p + r / 256, p, q, r / 256);
  }

  lemma {:induction false} QuotientIs(n: nat, d: nat, q: nat, r: nat)
    requires d > 0 && r < d && n == q * d + r
    ensures n / d == q
  {
    var x := n / d;
    assert n == x * d + n % d;
    if x < q { Apart(x, q, d); }
    if q < x { Apart(q, x, d); }
  }

  lemma {:induction false} Apart(x: nat, y: nat, d: nat)
    requires x < y
    ensures x * d + d <= y * d
  {
    var k := y - x - 1;
    Times(k, d);
    assert y * d == (x + 1 + k) * d == x * d + d + k * d;
  }

  lemma {:induction false} Times(k: nat, d: nat)
    ensures k * d >= 0
  {
  }

  /** A number below 256 is its last byte. */
  lemma {:induction false} SmallBE(n: nat)
    requires n < 256
    ensures BE(n, 2) == [0, n] && BE(n, 4) == [0, 0, 0, n] && BE(n, 8) == [0, 0, 0, 0, 0, 0, 0, n]
  {
    ZeroBE();
    LastByte(n, 2); LastByte(n, 4); LastByte(n, 8);
  }

  lemma {:induction false} LastByte(n: nat, w: nat)
    requires n < 256 && w > 0
    ensures BE(n, w) == BE(0, w - 1) + [n]
  {
  }

  lemma {:induction false} ZeroBE()
    ensures BE(0, 1) == [0] && BE(0, 3) == [0, 0, 0] && BE(0, 7) == [0, 0, 0, 0, 0, 0, 0]
  {
    assert BE(0, 2) == BE(0, 1) + [0] && BE(0, 3) == BE(0, 2) + [0] && BE(0, 4) == BE(0, 3) + [0];
    assert BE(0, 5) == BE(0, 4) + [0] && BE(0, 6) == BE(0, 5) + [0] && BE(0, 7) == BE(0, 6) + [0];
  }

  /** The vector {1: 2, 5: 3}, and the empty one. */
  lemma {:induction false} GoldenVector()
    ensures EncodeVV([]) == [0, 0]
    ensures EncodeVV([Counter(1, 2), Counter(5, 3)])
            == [0, 2] + ([0, 0, 0, 0, 0, 0, 0, 1] + [0, 0, 0, 0, 0, 0, 0, 2]
                         + ([0, 0, 0, 0, 0, 0, 0, 5] + [0, 0, 0, 0, 0, 0, 0, 3]))
  {
    SmallBE(0); SmallBE(1); SmallBE(2); SmallBE(3); SmallBE(5);
    OneCounterCode(Counter(5, 3));
    assert [Counter(1, 2), Counter(5, 3)][1..] == [Counter(5, 3)];
  }

  lemma {:induction false} OneCounter(id: ShortID, value: U64)
    requires id < 256 && value < 256
    ensures EncodeVV([Counter(id, value)]) == [0, 1] + ([0, 0, 0, 0, 0, 0, 0, id] + [0, 0, 0, 0, 0, 0, 0, value])
  {
    SmallBE(1); SmallBE(id); SmallBE(value);
    OneCounterCode(Counter(id, value));
  }

  /** A plain live file of one count: content, mode byte, deleted flag, vector. */
  lemma {:induction false} GoldenLeaf(H: Hasher, fi: FileInfo)
    requires fi.ftype == TypeFile && fi.mode == 0x1A4 && !fi.deleted && fi.version == [Counter(1, 1)]
    ensures LeafEncoding(fi) == fi.contentHash + [0] + [0] + ([0, 1] + ([0, 0, 0, 0, 0, 0, 0, 1] + [0, 0, 0, 0, 0, 0, 0, 1]))
    ensures LeafHash(H, fi) == H([0] + LeafEncoding(fi))
  {
    OneCounter(1, 1);
  }

  /** A directory whose one child is a.txt. */
  lemma {:induction false} GoldenNode(h: Digest)
    ensures NodeEncoding([ChildEntry([0x61, 0x2E, 0x74, 0x78, 0x74], h)])
            == [0, 0, 0, 1] + ([0, 5] + [0x61, 0x2E, 0x74, 0x78, 0x74] + h)
  {
    SmallBE(1); SmallBE(5);
    var e := ChildEntry([0x61, 0x2E, 0x74, 0x78, 0x74], h);
    OneEntryCode(e);
  }

  lemma {:induction false} OneEntryCode(e: ChildEntry)
    ensures EncodeEntries([e]) == EncodeEntry(e)
  {
    assert [e][1..] == [];
  }

  lemma {:induction false} OneCounterCode(c: Counter)
    ensures EncodeCounters([c]) == BE(c.id, 8) + BE(c.value, 8)
  {
    assert [c][1..] == [];
  }

  lemma {:induction false} EntriesAreNamed(ch: map<Name, Node>)
    ensures var es, names := Entries(ch), SortedOf(ch.Keys);
            |es| == |names| && forall i | 0 <= i < |es| :: es[i] == ChildEntry(names[i], ch[names[i]].hash)
  {
    var names := SortedOf(ch.Keys);
    forall i | 0 <= i < |names| ensures Entries(ch)[i] == ChildEntry(names[i], ch[names[i]].hash) { EntryAt(ch, names, i); }
  }

  lemma {:induction false} EntryOf(ch: map<Name, Node>, k: Name) returns (i: nat)
    requires k in ch
    ensures i < |Entries(ch)| && Entries(ch)[i].name == k
  {
    var names := SortedOf(ch.Keys);
    assert k in names;
    i :| 0 <= i < |names| && names[i] == k;
    EntryAt(ch, names, i);
  }

  lemma {:induction false} EntriesAscend(ch: map<Name, Node>)
    ensures var es := Entries(ch); forall i, j | 0 <= i < j < |es| :: Less(es[i].name, es[j].name)
  {
    EntriesAreNamed(ch);
  }

  /** What a directory hashes: each child once, by name in ascending byte order, with the child's hash. */
  lemma {:induction false} DirectoryEntries(ch: map<Name, Node>)
    ensures var es := Entries(ch);
            && (forall i | 0 <= i < |es| :: es[i].name in ch && es[i].hash == ch[es[i].name].hash)
            && (forall k | k in ch :: exists i | 0 <= i < |es| :: es[i].name == k)
            && (forall i, j | 0 <= i < j < |es| :: Less(es[i].name, es[j].name))
  {
    EntriesAreNamed(ch);
    EntriesAscend(ch);
    forall k | k in ch ensures exists i | 0 <= i < |Entries(ch)| :: Entries(ch)[i].name == k { var i := EntryOf(ch, k); }
  }

  lemma {:induction false} GoldenDirectory(H: Hasher, ch: map<Name, Node>)
    ensures DirHash(H, ch) == H([1] + NodeEncoding(Entries(ch)))
  {
  }

  /** A deleted link at a, of a size and a mode that tell their bytes apart, one nanosecond before the epoch. */
  lemma {:induction false} GoldenRecord(fi: FileInfo)
    requires fi.path == [0x61] && fi.size == 0x0102_0304_0506_0708 && fi.mode == 0x0A0B_0C0D && fi.mtime == -1
    requires fi.ftype == TypeSymlink && fi.deleted && fi.version == []
    ensures EncodeInfo(fi)
            == Some([0, 1] + [0x61]
                    + (fi.contentHash + [1, 2, 3, 4, 5, 6, 7, 8] + [0x0A, 0x0B, 0x0C, 0x0D]
                       + [255, 255, 255, 255, 255, 255, 255, 255] + [2] + [1])
                    + [0, 0])
  {
    SmallBE(1);
    GoldenVector();
    Ascending();
    MinusOne();
  }

  lemma {:induction false} Ascending()
    ensures BE(0x0102_0304_0506_0708, 8) == [1, 2, 3, 4, 5, 6, 7, 8] && BE(0x0A0B_0C0D, 4) == [0x0A, 0x0B, 0x0C, 0x0D]
  {
    assert BE(1, 1) == [1] && BE(0x0102, 2) == BE(1, 1) + [2] && BE(0x0102_03, 3) == BE(0x0102, 2) + [3];
    assert BE(0x0102_0304, 4) == BE(0x0102_03, 3) + [4] && BE(0x0102_0304_05, 5) == BE(0x0102_0304, 4) + [5];
    assert BE(0x0102_0304_0506, 6) == BE(0x0102_0304_05, 5) + [6];
    assert BE(0x0102_0304_0506_07, 7) == BE(0x0102_0304_0506, 6) + [7];
    assert BE(0x0102_0304_0506_0708, 8) == BE(0x0102_0304_0506_07, 7) + [8];
    assert BE(0x0A, 1) == [0x0A] && BE(0x0A0B, 2) == BE(0x0A, 1) + [0x0B] && BE(0x0A0B_0C, 3) == BE(0x0A0B, 2) + [0x0C];
    assert BE(0x0A0B_0C0D, 4) == BE(0x0A0B_0C, 3) + [0x0D];
  }

  lemma {:induction false} AllOnes(n: nat, w: nat)
    requires n == Pow256(w) - 1
    ensures BE(n, w) == seq(w, _ => 255)
  {
    if w > 0 {
      AllOnes(Pow256(w - 1) - 1, w - 1);
      assert n == 256 * (Pow256(w - 1) - 1) + 255;
      assert BE(n, w) == BE(Pow256(w - 1) - 1, w - 1) + [255];
    }
  }

  lemma {:induction false} MinusOne()
    ensures BE(ToU64(-1), 8) == [255, 255, 255, 255, 255, 255, 255, 255]
  {
    Widths();
    AllOnes(TWO64 - 1, 8);
  }

  /** The payload of each message, for a folder or path "ab". */
  lemma {:induction false} GoldenMessages(id: Digest, root: Digest, count: Byte, body: Bytes)
    ensures var ab := [0, 2, 0x61, 0x62];
            && Payload(Hello(1, id, [0x61, 0x62], root, 3)) == Ok([0, 1] + id + ab + root + [0, 0, 0, 3])
            && Payload(Index([0x61, 0x62], count, body)) == Ok(ab + [0, 0, 0, count] + body)
            && Payload(IndexUpdate([0x61, 0x62], count, body)) == Ok(ab + [0, 0, 0, count] + body)
            && Payload(Close([0x61, 0x62])) == Ok(ab)
            && Payload(Ping) == Ok([])
  {
    SmallBE(1); SmallBE(3); SmallBE(count);
    PrefixedAb();
  }

  lemma {:induction false} GoldenTransfer(root: Digest, code: U8, body: Bytes)
    requires |body| <= 0x100_0000 - 6
    ensures Payload(Request(7, [0x61, 0x62], root, 9, 8))
            == Ok([0, 0, 0, 7] + [0, 2, 0x61, 0x62] + root + [0, 0, 0, 0, 0, 0, 0, 9] + [0, 0, 0, 8])
    ensures Payload(Response(7, code, body)) == Ok([0, 0, 0, 7] + [code] + body)
  {
    SmallBE(7); SmallBE(8); SmallBE(9);
    PrefixedAb();
  }

  lemma {:induction false} PrefixedAb()
    ensures Prefixed([0x61, 0x62]) == [0, 2, 0x61, 0x62]
  {
    SmallBE(2);
  }

  /** A frame: the length of type and payload, the type, the payload. A keepalive is five bytes. */
  lemma {:induction false} GoldenFrame(payload: Bytes)
    requires |payload| < 255
    ensures Frame(TypeOf(Ping), []) == [0, 0, 0, 1, 6]
    ensures forall t: Byte :: Frame(t, payload) == [0, 0, 0, |payload| + 1] + [t] + payload
  {
    SmallBE(1);
    SmallBE(|payload| + 1);
  }
}
