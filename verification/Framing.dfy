/** Length-prefixed frames on a byte stream and the reader loop over them
    (internal/protocol/framing.go, the readLoop of internal/transport/conn.go). */
module Framing {
  import opened Basics
  import opened Wire
  import opened Messages

  datatype FrameError = EndOfStream | UnexpectedEnd | ZeroLength | FrameTooLarge

  // ---- reading ----

  /** The bytes a connection has still to yield before it ends. */
  class Stream {
    var rest: Bytes

    constructor (b: Bytes)
      ensures rest == b
    {
      rest := b;
    }

    /** io.ReadFull for n > 0. */
    method ReadFull(n: nat) returns (r: Result<Bytes, FrameError>)
      modifies this
      ensures if n <= |old(rest)| then r == Ok(old(rest)[..n]) && rest == old(rest)[n..]
              else r == Err(CutShort(old(rest))) && rest == []
    {
      if n > |rest| {
        r := Err(CutShort(rest));
        rest := [];
        return;
      }
      r := Ok(rest[..n]);
      rest := rest[n..];
    }
  }

  function CutShort(b: Bytes): (e: FrameError) { if b == [] then EndOfStream else UnexpectedEnd }

  /** The first frame of b: its type, payload and total length. */
  function ParseFrame(b: Bytes): (r: Result<(Byte, Bytes, nat), FrameError>)
    ensures r.Ok? ==> 5 <= r.value.2 <= |b|
  {
    if |b| < 4 then Err(CutShort(b))
    else
      var n := U32At(b, 0);
      if n == 0 then Err(ZeroLength)
      else if n > MAX_FRAME_LEN then Err(FrameTooLarge)
      else if |b| < 4 + n then Err(CutShort(b[4..]))
      else Ok((b[4], b[5..4 + n], 4 + n))
  }

  /** The length is checked before the body is touched. */
  method ReadFrame(s: Stream) returns (r: Result<(Byte, Bytes), FrameError>)
    modifies s
    ensures var p := ParseFrame(old(s.rest));
            if p.Ok? then r == Ok((p.value.0, p.value.1)) && s.rest == old(s.rest)[p.value.2..] else r == Err(p.error)
  {
    ghost var b := s.rest;
    var hdr := s.ReadFull(4);
    if hdr.Err? { return Err(hdr.error); }
    assert hdr.value == b[0..4];
    UnBEBound(hdr.value);
    var length := UnBE(hdr.value);
    if length == 0 { return Err(ZeroLength); }
    if length > MAX_FRAME_LEN { return Err(FrameTooLarge); }
    var body := s.ReadFull(length);
    if body.Err? { return Err(body.error); }
    BodyOfFrame(b, length);
    return Ok((body.value[0], body.value[1..]));
  }

  /** The outcomes of reading a frame, told by the bytes there are and the number the first four make. */
  lemma {:induction false} FrameOutcomes(b: Bytes)
    ensures var r, n := ParseFrame(b), if |b| < 4 then 0 else UnBE(b[..4]);
            && (r == Err(ZeroLength) <==> |b| >= 4 && n == 0)
            && (r == Err(FrameTooLarge) <==> |b| >= 4 && n > 0x100_0000)
            && (r == Err(EndOfStream) <==> b == [] || (|b| == 4 && 0 < n <= 0x100_0000))
            && (r.Ok? <==> |b| >= 4 && 0 < n <= 0x100_0000 && |b| >= 4 + n)
            && (r.Ok? ==> r.value.2 == 4 + n && [r.value.0] + r.value.1 == b[4..4 + n])
  {
    if |b| >= 4 { assert b[0..4] == b[..4]; }
  }

  lemma {:induction false} BodyOfFrame(b: Bytes, n: nat)
    requires 0 < n && 4 + n <= |b|
    ensures b[4..][..n][0] == b[4] && b[4..][..n][1..] == b[5..4 + n] && b[4..][n..] == b[4 + n..]
  {
  }

  // ---- writing ----

  function Frame(t: Byte, payload: Bytes): (f: Bytes)
    requires FRAME_TYPE_LEN + |payload| <= MAX_FRAME_LEN
    ensures |f| == 5 + |payload|
  {
    BE(FRAME_TYPE_LEN + |payload|, 4) + [t] + payload
  }

  predicate Fits(payload: Bytes) { FRAME_TYPE_LEN + |payload| <= MAX_FRAME_LEN }

  class Sink {
    var written: Bytes

    constructor ()
      ensures written == []
    {
      written := [];
    }

    /** Refuses an oversized frame without writing any of it. */
    method WriteFrame(t: Byte, payload: Bytes) returns (ok: bool)
      modifies this
      ensures ok <==> Fits(payload)
      ensures written == if ok then old(written) + Frame(t, payload) else old(written)
    {
      var length := FRAME_TYPE_LEN + |payload|;
      if length > MAX_FRAME_LEN { return false; }
      written := written + (BE(length, 4) + [t] + payload);
      return true;
    }

    method WriteMessage(m: Message) returns (ok: bool)
      modifies this
      ensures ok <==> Writable(Sent(m))
      ensures written == if ok then old(written) + FrameOf(Sent(m)) else old(written)
    {
      var payload := EncodeMessage(m);
      if payload.Err? { return false; }
      ok := WriteFrame(TypeOf(m), payload.value);
    }
  }

  /** What a peer puts on the wire: one of our messages, or a frame of a type assigned after this version. */
  datatype Item = Sent(m: Message) | Unassigned(t: Byte, payload: Bytes)

  predicate Writable(x: Item)
  {
    match x
    case Sent(m) => Payload(m).Ok? && Fits(Payload(m).value)
    case Unassigned(t, payload) => t >= 8 && Fits(payload)
  }

  predicate AllWritable(xs: seq<Item>) { forall i | 0 <= i < |xs| :: Writable(xs[i]) }

  function FrameOf(x: Item): (f: Bytes)
    requires Writable(x)
  {
    match x
    case Sent(m) => Frame(TypeOf(m), Payload(m).value)
    case Unassigned(t, payload) => Frame(t, payload)
  }

  function Transmission(xs: seq<Item>): (b: Bytes)
    requires AllWritable(xs)
  {
    if xs == [] then [] else FrameOf(xs[0]) + Transmission(xs[1..])
  }

  function MessagesOf(xs: seq<Item>): (ms: seq<Message>)
  {
    if xs == [] then [] else (if xs[0].Sent? then [xs[0].m] else []) + MessagesOf(xs[1..])
  }

  // ---- the reader loop ----

  datatype Stop = Broken(e: FrameError) | FatalType | Undecodable(d: DecodeError)

  /** One turn of the loop. */
  datatype Turn = Deliver(m: Message, used: nat) | Discard(used: nat) | Halt(stop: Stop)

  function NextTurn(b: Bytes): (t: Turn)
    ensures !t.Halt? ==> 0 < t.used <= |b|
  {
    var f := ParseFrame(b);
    if f.Err? then Halt(Broken(f.error))
    else
      match ActionOf(f.value.0)
      case Fatal => Halt(FatalType)
      case Skip => Discard(f.value.2)
      case Dispatch =>
        var m := ParseMessage(f.value.0, f.value.1);
        if m.Err? then Halt(Undecodable(m.error)) else Deliver(m.value, f.value.2)
  }

  /** Every message the loop hands on from b, and why it stops. */
  function Drain(b: Bytes): (r: (seq<Message>, Stop))
    decreases |b|
  {
    match NextTurn(b)
    case Halt(stop) => ([], stop)
    case Discard(used) => Drain(b[used..])
    case Deliver(m, used) => var r := Drain(b[used..]); ([m] + r.0, r.1)
  }

  method ReadLoop(s: Stream) returns (out: seq<Message>, stop: Stop)
    modifies s
    ensures (out, stop) == Drain(old(s.rest))
  {
    out := [];
    ghost var b := s.rest;
    EmptyLeft(Drain(b).0);
    while true
      invariant Drain(b) == (out + Drain(s.rest).0, Drain(s.rest).1)
      decreases |s.rest|
    {
      ghost var left := s.rest;
      var f := ReadFrame(s);
      if f.Err? {
        assert out + [] == out;
        return out, Broken(f.error);
      }
      match ActionOf(f.value.0) {
        case Fatal =>
          assert out + [] == out;
          return out, FatalType;
        case Skip =>
        case Dispatch =>
          var m := DecodeMessage(f.value.0, f.value.1);
          if m.Err? {
            assert out + [] == out;
            return out, Undecodable(m.error);
          }
          Regroup(out, m.value, Drain(s.rest).0);
          out := out + [m.value];
      }
    }
  }

  // ---- what is written is what is read ----

  lemma {:induction false} FrameRoundTrip(t: Byte, payload: Bytes, rest: Bytes)
    requires Fits(payload)
    ensures ParseFrame(Frame(t, payload) + rest) == Ok((t, payload, 5 + |payload|))
  {
    var b := Frame(t, payload) + rest;
    Widths();
    assert b[0..4] == BE(1 + |payload|, 4);
    UnBEOfBE(1 + |payload|, 4);
    assert b[5..5 + |payload|] == payload;
  }

  /** The sender's budget is the receiver's: what may be written is accepted, and what may not would be refused. */
  lemma {:induction false} BudgetsAgree(t: Byte, payload: Bytes)
    requires |payload| < TWO32 - 1
    ensures var frame := BE(1 + |payload|, 4) + [t] + payload;
            ParseFrame(frame) == if Fits(payload) then Ok((t, payload, |frame|)) else Err(FrameTooLarge)
  {
    var frame := BE(1 + |payload|, 4) + [t] + payload;
    if Fits(payload) {
      FrameRoundTrip(t, payload, []);
      assert Frame(t, payload) + [] == frame;
    } else {
      Widths();
      UnBEOfBE(1 + |payload|, 4);
      assert frame[0..4] == BE(1 + |payload|, 4);
    }
  }

  /** Any response within the chunk limit may be written, and no other. */
  lemma {:induction false} ChunkLimitIsExact(m: Message)
    requires m.Response?
    ensures Writable(Sent(m)) <==> |m.data| <= MAX_CHUNK_LEN
  {
  }

  lemma {:induction false} TurnOfFrame(x: Item, rest: Bytes)
    requires Writable(x)
    ensures NextTurn(FrameOf(x) + rest) == if x.Sent? then Deliver(x.m, |FrameOf(x)|) else Discard(|FrameOf(x)|)
  {
    match x
    case Sent(m) =>
      FrameRoundTrip(TypeOf(m), Payload(m).value, rest);
      MessageRoundTrip(m);
    case Unassigned(t, payload) => FrameRoundTrip(t, payload, rest);
  }

  lemma {:induction false} DrainOne(x: Item, rest: Bytes)
    requires Writable(x)
    ensures Drain(FrameOf(x) + rest) == ((if x.Sent? then [x.m] else []) + Drain(rest).0, Drain(rest).1)
  {
    TurnOfFrame(x, rest);
    assert (FrameOf(x) + rest)[|FrameOf(x)|..] == rest;
    EmptyLeft(Drain(rest).0);
  }

  /** A stream of written messages, interleaved with frames of unassigned types, is read as exactly those
      messages in order, and reading goes on with whatever follows. */
  lemma {:induction false} StreamRoundTrip(xs: seq<Item>, rest: Bytes)
    requires AllWritable(xs)
    ensures Drain(Transmission(xs) + rest) == (MessagesOf(xs) + Drain(rest).0, Drain(rest).1)
  {
    if xs == [] {
      EmptyLeft(rest);
      EmptyLeft(Drain(rest).0);
    } else {
      StreamRoundTrip(xs[1..], rest);
      Assoc(FrameOf(xs[0]), Transmission(xs[1..]), rest);
      DrainOne(xs[0], Transmission(xs[1..]) + rest);
      Assoc(if xs[0].Sent? then [xs[0].m] else [], MessagesOf(xs[1..]), Drain(rest).0);
    }
  }

  lemma {:induction false} BadFrameHalts(t: Byte, payload: Bytes, rest: Bytes)
    requires Fits(payload) && t <= 7 && ParseMessage(t, payload).Err?
    ensures Drain(Frame(t, payload) + rest) == ([], if t == 0 then FatalType else Undecodable(ShortPayload))
  {
    FrameRoundTrip(t, payload, rest);
  }

  /** A frame of the reserved type 0, or one of our types that does not decode, ends the stream there: everything
      before it is handed on, nothing after it is. */
  lemma {:induction false} BadFrameStops(xs: seq<Item>, t: Byte, payload: Bytes, rest: Bytes)
    requires AllWritable(xs) && Fits(payload) && t <= 7 && ParseMessage(t, payload).Err?
    ensures Drain(Transmission(xs) + (Frame(t, payload) + rest)) ==
            (MessagesOf(xs), if t == 0 then FatalType else Undecodable(ShortPayload))
  {
    BadFrameHalts(t, payload, rest);
    StreamRoundTrip(xs, Frame(t, payload) + rest);
    assert MessagesOf(xs) + [] == MessagesOf(xs);
  }

  /** How many whole frames fit in the first k bytes. */
  function Whole(xs: seq<Item>, k: nat): (n: nat)
    requires AllWritable(xs)
    ensures n <= |xs|
  {
    if xs == [] || k < |FrameOf(xs[0])| then 0 else 1 + Whole(xs[1..], k - |FrameOf(xs[0])|)
  }

  lemma {:induction false} CutFrame(x: Item, q: Bytes)
    requires Writable(x) && q < FrameOf(x)
    ensures NextTurn(q) == Halt(Broken(EndOfStream)) || NextTurn(q) == Halt(Broken(UnexpectedEnd))
  {
    var f := FrameOf(x);
    if |q| >= 4 {
      assert q[0..4] == f[0..4];
      var t, payload := if x.Sent? then TypeOf(x.m) else x.t, if x.Sent? then Payload(x.m).value else x.payload;
      FrameRoundTrip(t, payload, []);
      assert f + [] == f;
    }
  }

  /** The messages of those frames. */
  function Arrived(xs: seq<Item>, k: nat): (ms: seq<Message>)
    requires AllWritable(xs)
  {
    if xs == [] || k < |FrameOf(xs[0])| then []
    else (if xs[0].Sent? then [xs[0].m] else []) + Arrived(xs[1..], k - |FrameOf(xs[0])|)
  }

  lemma {:induction false} ArrivedAreFirst(xs: seq<Item>, k: nat)
    requires AllWritable(xs)
    ensures Arrived(xs, k) == MessagesOf(xs[..Whole(xs, k)])
  {
    if xs != [] && k >= |FrameOf(xs[0])| {
      var rest := k - |FrameOf(xs[0])|;
      ArrivedAreFirst(xs[1..], rest);
      var first := xs[..1 + Whole(xs[1..], rest)];
      assert first[0] == xs[0] && first[1..] == xs[1..][..Whole(xs[1..], rest)];
    }
  }

  lemma {:induction false} CutInHead(xs: seq<Item>, k: nat)
    requires AllWritable(xs) && xs != [] && k < |FrameOf(xs[0])|
    ensures Drain(Transmission(xs)[..k]) in {([], Broken(EndOfStream)), ([], Broken(UnexpectedEnd))}
  {
    TakeInHead(FrameOf(xs[0]), Transmission(xs[1..]), k);
    CutFrame(xs[0], FrameOf(xs[0])[..k]);
  }

  lemma {:induction false} CutPastHead(xs: seq<Item>, k: nat)
    requires AllWritable(xs) && xs != [] && |FrameOf(xs[0])| <= k <= |Transmission(xs)|
    ensures Transmission(xs)[..k] == FrameOf(xs[0]) + Transmission(xs[1..])[..k - |FrameOf(xs[0])|]
  {
    TakePastHead(FrameOf(xs[0]), Transmission(xs[1..]), k);
  }

  lemma {:induction false} CutDrain(xs: seq<Item>, k: nat)
    requires AllWritable(xs) && k <= |Transmission(xs)|
    ensures Drain(Transmission(xs)[..k]).0 == Arrived(xs, k)
    ensures Drain(Transmission(xs)[..k]).1 in {Broken(EndOfStream), Broken(UnexpectedEnd)}
    decreases |xs|
  {
    if xs == [] {
      assert Transmission(xs)[..k] == [];
    } else if k < |FrameOf(xs[0])| {
      CutInHead(xs, k);
    } else {
      var n := k - |FrameOf(xs[0])|;
      CutDrain(xs[1..], n);
      CutPastHead(xs, k);
      DrainOne(xs[0], Transmission(xs[1..])[..n]);
    }
  }

  /** A stream that ends after any number of bytes yields exactly the messages of its whole frames: a frame is
      never delivered in part, and no byte is ever read as belonging to another frame. */
  lemma {:induction false} CutStream(xs: seq<Item>, k: nat)
    requires AllWritable(xs) && k <= |Transmission(xs)|
    ensures Drain(Transmission(xs)[..k]).0 == MessagesOf(xs[..Whole(xs, k)])
    ensures Drain(Transmission(xs)[..k]).1 in {Broken(EndOfStream), Broken(UnexpectedEnd)}
  {
    CutDrain(xs, k);
    ArrivedAreFirst(xs, k);
  }
}
