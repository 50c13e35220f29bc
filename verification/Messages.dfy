/** The seven message envelopes and their payload grammar (internal/protocol/messages.go). */
module Messages {
  import opened Basics
  import opened Wire

  datatype Message =
    | Hello(protoVersion: U16, deviceID: Digest, folderID: Bytes, rootHash: Digest, featureFlags: U32)
    | Index(folderID: Bytes, count: U32, body: Bytes)
    | IndexUpdate(folderID: Bytes, count: U32, body: Bytes)
    | Request(reqID: U32, path: Bytes, contentHash: Digest, offset: U64, length: U32)
    | Response(reqID: U32, code: U8, data: Bytes)
    | Ping
    | Close(reason: Bytes)

  datatype Result<+T, +E> = Ok(value: T) | Err(error: E)
  datatype EncodeError = StringTooLong | ChunkTooLarge
  datatype DecodeError = ShortPayload | UnknownMsgType

  const MAX_FRAME_LEN := 0x100_0000
  const FRAME_TYPE_LEN := 1
  const RESPONSE_HEADER_LEN := 5
  const MAX_CHUNK_LEN := MAX_FRAME_LEN - FRAME_TYPE_LEN - RESPONSE_HEADER_LEN

  function TypeOf(m: Message): (t: Byte)
    ensures 1 <= t <= 7
  {
    match m
    case Hello(_, _, _, _, _) => 1
    case Index(_, _, _) => 2
    case IndexUpdate(_, _, _) => 3
    case Request(_, _, _, _, _) => 4
    case Response(_, _, _) => 5
    case Ping => 6
    case Close(_) => 7
  }

  datatype RecvAction = Fatal | Dispatch | Skip

  function ActionOf(t: Byte): (a: RecvAction)
  {
    if t == 0 then Fatal else if 1 <= t && t <= 7 then Dispatch else Skip
  }

  // ---- encoding ----

  function Prefixed(s: Bytes): (r: Bytes) { BE(|s|, 2) + s }

  /** The string a message carries under a uint16 length, if any. */
  function TextOf(m: Message): (s: Bytes)
  {
    match m
    case Hello(_, _, folderID, _, _) => folderID
    case Index(folderID, _, _) => folderID
    case IndexUpdate(folderID, _, _) => folderID
    case Request(_, path, _, _, _) => path
    case Close(reason) => reason
    case _ => []
  }

  function Fields(m: Message): (s: Bytes)
  {
    match m
    case Hello(v, id, folderID, root, flags) => BE(v, 2) + id + Prefixed(folderID) + root + BE(flags, 4)
    case Index(folderID, count, body) => Prefixed(folderID) + BE(count, 4) + body
    case IndexUpdate(folderID, count, body) => Prefixed(folderID) + BE(count, 4) + body
    case Request(reqID, path, hash, offset, length) =>
      BE(reqID, 4) + Prefixed(path) + hash + BE(offset, 8) + BE(length, 4)
    case Response(reqID, code, data) => BE(reqID, 4) + [code] + data
    case Ping => []
    case Close(reason) => Prefixed(reason)
  }

  function Payload(m: Message): (r: Result<Bytes, EncodeError>)
  {
    if m.Response? && |m.data| > MAX_CHUNK_LEN then Err(ChunkTooLarge)
    else if |TextOf(m)| > 0xFFFF then Err(StringTooLong)
    else Ok(Fields(m))
  }

  /** An append-only encoder with a sticky error: after a failure nothing more is appended. */
  class Encbuf {
    var b: Bytes
    var err: Option<EncodeError>

    constructor ()
      ensures b == [] && err == None
    {
      b, err := [], None;
    }

    method Fail(e: EncodeError)
      modifies this
      ensures b == old(b) && err == if old(err) == None then Some(e) else old(err)
    {
      if err == None { err := Some(e); }
    }

    method Raw(p: Bytes)
      modifies this
      ensures err == old(err) && b == if err == None then old(b) + p else old(b)
    {
      if err != None { return; }
      b := b + p;
    }

    /** u8, u16, u32, u64. */
    method UInt(n: nat, w: nat)
      modifies this
      ensures err == old(err) && b == if err == None then old(b) + BE(n, w) else old(b)
    {
      if err != None { return; }
      b := b + BE(n, w);
    }

    method LenPrefixed(s: Bytes)
      modifies this
      ensures old(err) != None || |s| > 0xFFFF ==> b == old(b)
      ensures old(err) != None || |s| <= 0xFFFF ==> err == old(err)
      ensures old(err) == None && |s| > 0xFFFF ==> err == Some(StringTooLong)
      ensures old(err) == None && |s| <= 0xFFFF ==> b == old(b) + Prefixed(s)
    {
      if err != None { return; }
      if |s| > 0xFFFF {
        Fail(StringTooLong);
        return;
      }
      UInt(|s|, 2);
      Assoc(old(b), BE(|s|, 2), s);
      b := b + s;
    }
  }

  method EncodeMessage(m: Message) returns (r: Result<Bytes, EncodeError>)
    ensures r == Payload(m)
  {
    var e := new Encbuf();
    match m {
      case Hello(v, id, folderID, root, flags) =>
        e.UInt(v, 2);
        EmptyLeft(BE(v, 2));
        e.Raw(id);
        e.LenPrefixed(folderID);
        e.Raw(root);
        e.UInt(flags, 4);
      case Index(folderID, count, body) => EncodeIndexBody(e, folderID, count, body);
      case IndexUpdate(folderID, count, body) => EncodeIndexBody(e, folderID, count, body);
      case Request(reqID, path, hash, offset, length) =>
        e.UInt(reqID, 4);
        EmptyLeft(BE(reqID, 4));
        e.LenPrefixed(path);
        e.Raw(hash);
        e.UInt(offset, 8);
        e.UInt(length, 4);
      case Response(reqID, code, data) =>
        if |data| > MAX_CHUNK_LEN {
          e.Fail(ChunkTooLarge);
        } else {
          e.UInt(reqID, 4);
          EmptyLeft(BE(reqID, 4));
          e.Raw([code]);
          e.Raw(data);
        }
      case Ping =>
      case Close(reason) =>
        e.LenPrefixed(reason);
        EmptyLeft(Prefixed(reason));
    }
    if e.err != None { return Err(e.err.value); }
    return Ok(e.b);
  }

  method EncodeIndexBody(e: Encbuf, folderID: Bytes, count: U32, body: Bytes)
    requires e.b == [] && e.err == None
    modifies e
    ensures e.err == if |folderID| > 0xFFFF then Some(StringTooLong) else None
    ensures e.err == None ==> e.b == Prefixed(folderID) + BE(count, 4) + body
  {
    e.LenPrefixed(folderID);
    e.UInt(count, 4);
    e.Raw(body);
    EmptyLeft(Prefixed(folderID));
  }

  // ---- decoding ----

  /** The 4-byte and 8-byte integers and digests of the grammar, in place. */
  function U32At(b: Bytes, off: nat): (n: U32)
    requires off + 4 <= |b|
  {
    UnBEBound(b[off..off + 4]); Widths();
    UnBE(b[off..off + 4])
  }

  function U64At(b: Bytes, off: nat): (n: U64)
    requires off + 8 <= |b|
  {
    UnBEBound(b[off..off + 8]); Widths();
    UnBE(b[off..off + 8])
  }

  function U16At(b: Bytes, off: nat): (n: U16)
    requires off + 2 <= |b|
  {
    UnBEBound(b[off..off + 2]); Widths();
    UnBE(b[off..off + 2])
  }

  function ParseHello(p: Bytes): (r: Option<Message>)
  {
    if |p| < 34 || PrefixedEnd(p, 34).None? || PrefixedEnd(p, 34).value + 36 > |p| then None
    else
      var e := PrefixedEnd(p, 34).value;
      Some(Hello(U16At(p, 0), p[2..34], p[36..e], p[e..e + 32], U32At(p, e + 32)))
  }

  function ParseIndexBody(p: Bytes): (r: Option<(Bytes, U32, Bytes)>)
  {
    if PrefixedEnd(p, 0).None? || PrefixedEnd(p, 0).value + 4 > |p| then None
    else
      var e := PrefixedEnd(p, 0).value;
      Some((p[2..e], U32At(p, e), p[e + 4..]))
  }

  function ParseRequest(p: Bytes): (r: Option<Message>)
  {
    if |p| < 4 || PrefixedEnd(p, 4).None? || PrefixedEnd(p, 4).value + 44 > |p| then None
    else
      var e := PrefixedEnd(p, 4).value;
      Some(Request(U32At(p, 0), p[6..e], p[e..e + 32], U64At(p, e + 32), U32At(p, e + 40)))
  }

  function ParseResponse(p: Bytes): (r: Option<Message>)
  {
    if |p| < 5 then None else Some(Response(U32At(p, 0), p[4], p[5..]))
  }

  function ParseClose(p: Bytes): (r: Option<Message>)
  {
    if p == [] then Some(Close([]))
    else if PrefixedEnd(p, 0).None? then None
    else Some(Close(p[2..PrefixedEnd(p, 0).value]))
  }

  function OrShort(m: Option<Message>): (r: Result<Message, DecodeError>)
  {
    if m.Some? then Ok(m.value) else Err(ShortPayload)
  }

  function ParseMessage(t: Byte, p: Bytes): (r: Result<Message, DecodeError>)
  {
    match t
    case 1 => OrShort(ParseHello(p))
    case 2 =>
      var x := ParseIndexBody(p);
      OrShort(if x.Some? then Some(Index(x.value.0, x.value.1, x.value.2)) else None)
    case 3 =>
      var x := ParseIndexBody(p);
      OrShort(if x.Some? then Some(IndexUpdate(x.value.0, x.value.1, x.value.2)) else None)
    case 4 => OrShort(ParseRequest(p))
    case 5 => OrShort(ParseResponse(p))
    case 6 => Ok(Ping)
    case 7 => OrShort(ParseClose(p))
    case _ => Err(UnknownMsgType)
  }

  method DecodeMessage(t: Byte, p: Bytes) returns (r: Result<Message, DecodeError>)
    ensures r == ParseMessage(t, p)
  {
    match t {
      case 1 =>
        var m := DecodeHello(p);
        return OrShort(m);
      case 2 =>
        var x := DecodeIndexBody(p);
        if x.None? { return Err(ShortPayload); }
        return Ok(Index(x.value.0, x.value.1, x.value.2));
      case 3 =>
        var x := DecodeIndexBody(p);
        if x.None? { return Err(ShortPayload); }
        return Ok(IndexUpdate(x.value.0, x.value.1, x.value.2));
      case 4 =>
        var m := DecodeRequest(p);
        return OrShort(m);
      case 5 =>
        var m := DecodeResponse(p);
        return OrShort(m);
      case 6 => return Ok(Ping);
      case 7 =>
        var m := DecodeClose(p);
        return OrShort(m);
      case _ => return Err(UnknownMsgType);
    }
  }

  method DecodeHello(p: Bytes) returns (r: Option<Message>)
    ensures r == ParseHello(p)
  {
    Widths();
    var d := new Reader(p);
    var v := d.UInt(2);
    var id := d.Array32();
    var folderID := d.LenPrefixed();
    var root := d.Array32();
    var flags := d.UInt(4);
    return if d.err then None else Some(Hello(v, id, folderID, root, flags));
  }

  method DecodeIndexBody(p: Bytes) returns (r: Option<(Bytes, U32, Bytes)>)
    ensures r == ParseIndexBody(p)
  {
    Widths();
    var d := new Reader(p);
    var folderID := d.LenPrefixed();
    var count := d.UInt(4);
    var body := d.Rest();
    return if d.err then None else Some((folderID, count, body));
  }

  method DecodeRequest(p: Bytes) returns (r: Option<Message>)
    ensures r == ParseRequest(p)
  {
    Widths();
    var d := new Reader(p);
    var reqID := d.UInt(4);
    var path := d.LenPrefixed();
    var hash := d.Array32();
    var offset := d.UInt(8);
    var length := d.UInt(4);
    return if d.err then None else Some(Request(reqID, path, hash, offset, length));
  }

  method DecodeResponse(p: Bytes) returns (r: Option<Message>)
    ensures r == ParseResponse(p)
  {
    Widths();
    var d := new Reader(p);
    var reqID := d.UInt(4);
    var code := d.UInt(1);
    var data := d.Rest();
    if !d.err { SingleByte(p[4..5]); }
    return if d.err then None else Some(Response(reqID, code, data));
  }

  method DecodeClose(p: Bytes) returns (r: Option<Message>)
    ensures r == ParseClose(p)
  {
    if p == [] { return Some(Close([])); }
    var d := new Reader(p);
    var reason := d.LenPrefixed();
    return if d.err then None else Some(Close(reason));
  }

  // ---- round trip ----

  /** A prefixed string standing at off reads back as itself. */
  lemma {:induction false} PrefixedAt(b: Bytes, off: nat, s: Bytes)
    requires |s| <= 0xFFFF && off + 2 + |s| <= |b| && b[off..off + 2 + |s|] == Prefixed(s)
    ensures PrefixedEnd(b, off) == Some(off + 2 + |s|) && b[off + 2..off + 2 + |s|] == s
  {
    SubSlice(b, off, off + 2 + |s|, 0, 2);
    SubSlice(b, off, off + 2 + |s|, 2, 2 + |s|);
    assert Prefixed(s)[0..2] == BE(|s|, 2) && Prefixed(s)[2..] == s;
    Widths();
    UnBEOfBE(|s|, 2);
  }

  lemma {:induction false} HelloRoundTrip(m: Message)
    requires m.Hello? && |m.folderID| <= 0xFFFF
    ensures ParseHello(Fields(m)) == Some(m)
  {
    var p := Fields(m);
    Parts(BE(m.protoVersion, 2), m.deviceID, Prefixed(m.folderID), m.rootHash, BE(m.featureFlags, 4));
    PrefixedAt(p, 34, m.folderID);
    var e := 36 + |m.folderID|;
    assert p[0..2] == p[..2] && p[e + 32..e + 36] == p[e + 32..];
    Widths();
    UnBEOfBE(m.protoVersion, 2);
    UnBEOfBE(m.featureFlags, 4);
  }

  lemma {:induction false} IndexBodyRoundTrip(folderID: Bytes, count: U32, body: Bytes)
    requires |folderID| <= 0xFFFF
    ensures ParseIndexBody(Prefixed(folderID) + BE(count, 4) + body) == Some((folderID, count, body))
  {
    var p := Prefixed(folderID) + BE(count, 4) + body;
    Parts(Prefixed(folderID), BE(count, 4), body, [], []);
    assert Prefixed(folderID) + BE(count, 4) + body + [] + [] == p;
    var e := 2 + |folderID|;
    assert p[0..e] == p[..e];
    PrefixedAt(p, 0, folderID);
    assert p[e + 4..] == p[e + 4..e + 4 + |body|];
    Widths();
    UnBEOfBE(count, 4);
  }

  lemma {:induction false} RequestRoundTrip(m: Message)
    requires m.Request? && |m.path| <= 0xFFFF
    ensures ParseRequest(Fields(m)) == Some(m)
  {
    var p := Fields(m);
    Parts(BE(m.reqID, 4), Prefixed(m.path), m.contentHash, BE(m.offset, 8), BE(m.length, 4));
    PrefixedAt(p, 4, m.path);
    var e := 6 + |m.path|;
    assert p[0..4] == p[..4] && p[e + 40..e + 44] == p[e + 40..];
    Widths();
    UnBEOfBE(m.reqID, 4);
    UnBEOfBE(m.offset, 8);
    UnBEOfBE(m.length, 4);
  }

  lemma {:induction false} ResponseRoundTrip(m: Message)
    requires m.Response?
    ensures ParseResponse(Fields(m)) == Some(m)
  {
    var p := Fields(m);
    assert p[0..4] == BE(m.reqID, 4) && p[4] == m.code && p[5..] == m.data;
    Widths();
    UnBEOfBE(m.reqID, 4);
  }

  lemma {:induction false} CloseRoundTrip(reason: Bytes)
    requires |reason| <= 0xFFFF
    ensures ParseClose(Prefixed(reason)) == Some(Close(reason))
  {
    var p := Prefixed(reason);
    assert p[0..2 + |reason|] == p;
    PrefixedAt(p, 0, reason);
  }

  /** Whatever encodes decodes to itself. */
  lemma {:induction false} MessageRoundTrip(m: Message)
    requires Payload(m).Ok?
    ensures ParseMessage(TypeOf(m), Payload(m).value) == Ok(m)
  {
    match m
    case Hello(_, _, _, _, _) => HelloRoundTrip(m);
    case Index(folderID, count, body) => IndexBodyRoundTrip(folderID, count, body);
    case IndexUpdate(folderID, count, body) => IndexBodyRoundTrip(folderID, count, body);
    case Request(_, _, _, _, _) => RequestRoundTrip(m);
    case Response(_, _, _) => ResponseRoundTrip(m);
    case Ping =>
    case Close(reason) => CloseRoundTrip(reason);
  }

  /** Messages whose grammar ends in a fixed field or a counted string. */
  predicate Delimited(m: Message) { m.Hello? || m.Request? || m.Close? }

  lemma {:induction false} ShortPrefix(p: Bytes, q: Bytes, off: nat, s: Bytes)
    requires |s| <= 0xFFFF && off + 2 + |s| <= |p| && p[off..off + 2 + |s|] == Prefixed(s) && q <= p
    ensures PrefixedEnd(q, off) == if |q| < off + 2 + |s| then None else Some(off + 2 + |s|)
  {
    PrefixedAt(p, off, s);
    if off + 2 <= |q| { assert q[off..off + 2] == p[off..off + 2]; }
  }

  /** Cutting such a payload anywhere is noticed; only an empty Close still decodes, to no reason. */
  lemma {:induction false} TruncationIsNoticed(m: Message, q: Bytes)
    requires Payload(m).Ok? && Delimited(m) && q < Payload(m).value
    ensures ParseMessage(TypeOf(m), q) == if m.Close? && q == [] then Ok(Close([])) else Err(ShortPayload)
  {
    var p := Fields(m);
    match m
    case Hello(_, _, _, _, _) =>
      Parts(BE(m.protoVersion, 2), m.deviceID, Prefixed(m.folderID), m.rootHash, BE(m.featureFlags, 4));
      ShortPrefix(p, q, 34, m.folderID);
    case Request(_, _, _, _, _) =>
      Parts(BE(m.reqID, 4), Prefixed(m.path), m.contentHash, BE(m.offset, 8), BE(m.length, 4));
      ShortPrefix(p, q, 4, m.path);
    case Close(reason) =>
      assert p[0..2 + |reason|] == p;
      ShortPrefix(p, q, 0, reason);
  }

  lemma {:induction false} PrefixedStable(p: Bytes, more: Bytes, off: nat)
    requires PrefixedEnd(p, off).Some?
    ensures PrefixedEnd(p + more, off) == PrefixedEnd(p, off)
  {
    SliceOfPrefix(p + more, p, off, off + 2);
  }

  lemma {:induction false} SameSlices(p: Bytes, more: Bytes)
    ensures forall i, j | 0 <= i <= j <= |p| :: (p + more)[i..j] == p[i..j]
  {
    forall i, j | 0 <= i <= j <= |p| ensures (p + more)[i..j] == p[i..j] { SliceOfPrefix(p + more, p, i, j); }
  }

  /** Bytes after such a payload are not looked at. */
  lemma {:induction false} TrailingIsIgnored(t: Byte, p: Bytes, more: Bytes)
    requires ParseMessage(t, p).Ok? && Delimited(ParseMessage(t, p).value) && p != []
    ensures ParseMessage(t, p + more) == ParseMessage(t, p)
  {
    SameSlices(p, more);
    if t == 1 { PrefixedStable(p, more, 34); }
    if t == 4 { PrefixedStable(p, more, 4); }
    if t == 7 { PrefixedStable(p, more, 0); }
  }
}
