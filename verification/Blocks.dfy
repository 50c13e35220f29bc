/** Block transfer (internal/reconcile/transfer.go): tiling, the source's guard, response routing, the fetch loop. */
module Blocks {
  import opened Basics
  import opened Messages

  const BLOCK := 32 * 1024

  type Response = m: Message | m.Response? witness Message.Response(0, 0, [])

  /** The number of blocks, in Go's uint64 arithmetic. */
  function NumBlocks(size: U64): (n: nat)
  {
    if size == 0 then 0 else ((size + BLOCK - 1) % TWO64) / BLOCK
  }

  /** The source's guard, in Go's uint64 arithmetic. */
  predicate ValidateRequest(offset: U64, length: U32, size: U64)
  {
    0 < length <= MAX_CHUNK_LEN && offset <= size && (offset + length) % TWO64 <= size
  }

  function BlockLength(size: U64, i: nat): (n: nat)
    requires i * BLOCK <= size
  {
    if size - i * BLOCK < BLOCK then size - i * BLOCK else BLOCK
  }

  /** The additions do not wrap. A file system's sizes are int64, so they always satisfy this. */
  predicate Sized(size: U64) { size + BLOCK - 1 < TWO64 }

  /** For a real file size the guard is exact: no wrap-around lets a request past the end. */
  lemma {:induction false} GuardIsExact(offset: U64, length: U32, size: U64)
    requires size < TWO63
    ensures ValidateRequest(offset, length, size) <==> 0 < length <= MAX_CHUNK_LEN && offset + length <= size
  {
  }

  lemma {:induction false} BlockCount(size: U64)
    requires Sized(size) && size > 0
    ensures NumBlocks(size) > 0 && (NumBlocks(size) - 1) * BLOCK < size <= NumBlocks(size) * BLOCK
  {
  }

  /** The blocks cover [0, size) without gap or overlap, and the source accepts each. */
  lemma {:induction false} BlocksTile(size: U64, i: nat)
    requires i < NumBlocks(size)
    ensures Sized(size) && i * BLOCK < size && 0 < BlockLength(size, i) <= BLOCK
    ensures i * BLOCK + BlockLength(size, i) == if i + 1 < NumBlocks(size) then (i + 1) * BLOCK else size
    ensures ValidateRequest(i * BLOCK, BlockLength(size, i), size)
  {
    TilingIsExact(size);
    BlockCount(size);
    assert i <= NumBlocks(size) - 1;
  }

  /** The block count is right exactly when the rounding addition does not wrap; when it does, there are no blocks. */
  lemma {:induction false} TilingIsExact(size: U64)
    ensures Sized(size) <==> (size == 0 || (NumBlocks(size) > 0 && size <= NumBlocks(size) * BLOCK))
    ensures !Sized(size) ==> NumBlocks(size) == 0
  {
    if Sized(size) && size > 0 { BlockCount(size); }
  }

  // ---- the source ----

  const OK: U8 := 0
  const GENERIC: U8 := 1
  const NO_SUCH_FILE: U8 := 2

  function Serve(file: Option<Bytes>, id: U32, offset: U64, length: U32): (r: Response)
  {
    if file.None? || |file.value| >= TWO63 then Message.Response(id, NO_SUCH_FILE, [])
    else if !ValidateRequest(offset, length, |file.value|) then Message.Response(id, GENERIC, [])
    else
      GuardIsExact(offset, length, |file.value|);
      Message.Response(id, OK, file.value[offset..offset + length])
  }

  /** A missing file, a range outside the file or over the chunk limit, and a good request are told apart. */
  lemma {:induction false} ServeAnswers(file: Bytes, id: U32, offset: U64, length: U32)
    requires |file| < TWO63
    ensures Serve(None, id, offset, length) == Message.Response(id, 2, [])
    ensures Serve(Some(file), id, offset, length)
            == if 0 < length <= MAX_CHUNK_LEN && offset + length <= |file|
               then Message.Response(id, 0, file[offset..offset + length]) else Message.Response(id, 1, [])
  {
    GuardIsExact(offset, length, |file|);
  }

  // ---- response routing ----

  /** The k-th request of a connection has this ID. */
  function IdOf(k: nat): (id: U32) { k % TWO32 }

  /** Two requests share an ID exactly when a multiple of 2^32 requests lies between them. */
  lemma {:induction false} IdsDiffer(j: nat, k: nat)
    requires j <= k
    ensures IdOf(j) == IdOf(k) <==> (k - j) % TWO32 == 0
    ensures j < k && k - j < TWO32 ==> IdOf(j) != IdOf(k)
  {
  }

  /** What reaches the peer's message loop while one request waits, and whether the wait ends without an answer
      (peer gone, timeout, cancellation). */
  datatype Wait = Wait(arrivals: seq<Response>, gaveUp: bool)

  /** The first arrival that carries the request's own ID. */
  function FirstFor(arrivals: seq<Response>, id: U32): (r: Option<Response>)
  {
    if arrivals == [] then None
    else if arrivals[0].reqID == id then Some(arrivals[0])
    else FirstFor(arrivals[1..], id)
  }

  function AnswerTo(w: Wait, id: U32): (r: Option<Response>)
  {
    if w.gaveUp then None else FirstFor(w.arrivals, id)
  }

  lemma {:induction false} FirstForIsOwn(arrivals: seq<Response>, id: U32)
    ensures FirstFor(arrivals, id).Some? ==>
              FirstFor(arrivals, id).value in arrivals && FirstFor(arrivals, id).value.reqID == id
    ensures FirstFor(arrivals, id).None? <==> forall r | r in arrivals :: r.reqID != id
  {
    if arrivals != [] { FirstForIsOwn(arrivals[1..], id); }
  }

  lemma {:induction false} FirstForStep(arrivals: seq<Response>, id: U32, i: nat)
    requires i < |arrivals|
    ensures FirstFor(arrivals[i..], id) == if arrivals[i].reqID == id then Some(arrivals[i]) else FirstFor(arrivals[i + 1..], id)
  {
    assert arrivals[i..][1..] == arrivals[i + 1..];
  }

  /** What the slot holds, or else will get from the arrivals still to come. */
  function SlotOr(slot: Option<Response>, rest: seq<Response>, id: U32): (r: Option<Response>)
  {
    if slot.Some? then slot else FirstFor(rest, id)
  }

  class Router {
    ghost var sent: nat
    var nextReq: U32
    var resp: map<U32, Option<Response>>

    /** At most the latest request is outstanding, and its slot holds nothing foreign. */
    ghost predicate Valid()
      reads this
    {
      && nextReq == IdOf(sent)
      && forall id | id in resp :: id == nextReq && (resp[id].Some? ==> resp[id].value.reqID == id)
    }

    constructor ()
      ensures Valid() && sent == 0 && resp == map[]
    {
      sent, nextReq, resp := 0, 0, map[];
    }

    /** routeResponse: a response without a waiting request, or for a filled slot, is dropped. */
    method Route(r: Response)
      requires Valid()
      modifies this`resp
      ensures Valid() && resp.Keys == old(resp).Keys
      ensures forall id | id in resp :: resp[id] == if id == r.reqID && old(resp)[id].None? then Some(r) else old(resp)[id]
    {
      if r.reqID in resp {
        if resp[r.reqID].None? { resp := resp[r.reqID := Some(r)]; }
      }
    }

    /** One REQUEST and its wait: late, foreign and repeated answers never become its result. */
    method RequestChunk(w: Wait) returns (r: Option<Response>)
      requires Valid() && resp == map[]
      modifies this
      ensures Valid() && resp == map[] && sent == old(sent) + 1
      ensures r == AnswerTo(w, IdOf(sent))
    {
      nextReq := (nextReq + 1) % TWO32;
      sent := sent + 1;
      resp := resp[nextReq := None];
      for i := 0 to |w.arrivals|
        invariant Valid() && sent == old(sent) + 1 && resp.Keys == {nextReq}
        invariant FirstFor(w.arrivals, nextReq) == SlotOr(resp[nextReq], w.arrivals[i..], nextReq)
      {
        FirstForStep(w.arrivals, nextReq, i);
        Route(w.arrivals[i]);
      }
      r := resp[nextReq];
      resp := resp - {nextReq};
      if w.gaveUp { r := None; }
    }
  }

  // ---- the fetch loop ----

  function BlockLen(size: U64, i: nat): (n: nat) { if i * BLOCK <= size then BlockLength(size, i) else 0 }

  /** Block i got an OK answer of the right length. */
  predicate GoodBlock(size: U64, base: nat, waits: seq<Wait>, i: nat)
    requires i < |waits|
  {
    var r := AnswerTo(waits[i], IdOf(base + i + 1));
    r.Some? && r.value.code == OK && |r.value.data| == BlockLen(size, i)
  }

  /** How much the blocks cover: everything, unless the count wrapped to nothing. */
  function Covered(size: U64): (n: nat) { if Sized(size) then size else 0 }

  /** data is the concatenation of the answers to the first n blocks. */
  predicate Assembled(data: Bytes, size: U64, base: nat, waits: seq<Wait>, n: nat)
    requires n <= |waits|
  {
    && |data| == (if n < NumBlocks(size) then n * BLOCK else Covered(size))
    && forall i | 0 <= i < n ::
         && GoodBlock(size, base, waits, i) && i * BLOCK + BlockLen(size, i) <= |data|
         && AnswerTo(waits[i], IdOf(base + i + 1)).value.data == data[i * BLOCK..i * BLOCK + BlockLen(size, i)]
  }

  /** fetchOverWire: stop-and-wait over the blocks, for any advertised size. It succeeds exactly when every block is
      answered properly. */
  method FetchOverWire(router: Router, size: U64, waits: seq<Wait>) returns (ok: bool, data: Bytes)
    requires router.Valid() && router.resp == map[] && |waits| == NumBlocks(size)
    modifies router
    ensures router.Valid() && router.resp == map[]
    ensures ok <==> forall i | 0 <= i < |waits| :: GoodBlock(size, old(router.sent), waits, i)
    ensures ok ==> Assembled(data, size, old(router.sent), waits, NumBlocks(size))
  {
    data := [];
    var nb := NumBlocks(size);
    var i := 0;
    ghost var base := router.sent;
    while i < nb
      invariant i <= nb && router.Valid() && router.resp == map[] && router.sent == base + i
      invariant Assembled(data, size, base, waits, i)
    {
      BlocksTile(size, i);
      var offset := i * BLOCK;
      var length := BLOCK;
      var remaining := size - offset;
      if remaining < length { length := remaining; }
      if length > MAX_CHUNK_LEN { length := MAX_CHUNK_LEN; }
      var r := router.RequestChunk(waits[i]);
      assert length == BlockLen(size, i) && r == AnswerTo(waits[i], IdOf(base + i + 1));
      if r.None? || r.value.code != OK || |r.value.data| != length {
        assert !GoodBlock(size, base, waits, i);
        return false, data;
      }
      AssembleStep(data, size, base, waits, i);
      data := data + r.value.data;
      i := i + 1;
    }
    return true, data;
  }

  lemma {:induction false} AssembleStep(data: Bytes, size: U64, base: nat, waits: seq<Wait>, n: nat)
    requires n < |waits| == NumBlocks(size)
    requires Assembled(data, size, base, waits, n) && GoodBlock(size, base, waits, n)
    ensures Assembled(data + AnswerTo(waits[n], IdOf(base + n + 1)).value.data, size, base, waits, n + 1)
  {
    BlocksTile(size, n);
    var more := AnswerTo(waits[n], IdOf(base + n + 1)).value.data;
    var all := data + more;
    forall i | 0 <= i < n + 1
      ensures GoodBlock(size, base, waits, i) && i * BLOCK + BlockLen(size, i) <= |all|
      ensures AnswerTo(waits[i], IdOf(base + i + 1)).value.data == all[i * BLOCK..i * BLOCK + BlockLen(size, i)]
    {
      if i < n {
        SliceOfPrefix(all, data, i * BLOCK, i * BLOCK + BlockLen(size, i));
      } else {
        assert |data| == n * BLOCK && more == all[|data|..|data| + |more|];
      }
    }
  }

  /** Every answer that carries a request's own ID is what the source serves for it. */
  predicate HonestAnswers(file: Bytes, size: U64, base: nat, waits: seq<Wait>)
  {
    forall i | 0 <= i < |waits| && i * BLOCK <= size ::
      var id := IdOf(base + i + 1);
      var r := AnswerTo(waits[i], id);
      r.None? || r.value == Serve(Some(file), id, i * BLOCK, BlockLength(size, i))
  }

  /** What the source owes: this response answers the j-th request of the connection. Only for the request now
      waited for, the current-th, is its content known; any other may hold anything. */
  predicate Answers(file: Bytes, size: U64, base: nat, i: nat, j: nat, r: Response)
    requires i * BLOCK <= size
  {
    && r.reqID == IdOf(j)
    && (j == base + i + 1 ==> r == Serve(Some(file), IdOf(j), i * BLOCK, BlockLength(size, i)))
  }

  /** Whatever arrives while block i is awaited answers the current request or an earlier one of the connection,
      for this file or any other, at most 2^32 - 1 requests back. */
  predicate HonestSource(file: Bytes, size: U64, base: nat, waits: seq<Wait>)
  {
    forall i, r | 0 <= i < |waits| && i * BLOCK <= size && r in waits[i].arrivals ::
      exists j: nat :: j <= base + i + 1 < j + TWO32 && Answers(file, size, base, i, j, r)
  }

  /** Late responses carry other IDs, so what is taken for the answer is the answer. */
  lemma {:induction false} HonestSourceAnswers(file: Bytes, size: U64, base: nat, waits: seq<Wait>)
    requires HonestSource(file, size, base, waits)
    ensures HonestAnswers(file, size, base, waits)
  {
    forall i | 0 <= i < |waits| && i * BLOCK <= size && AnswerTo(waits[i], IdOf(base + i + 1)).Some?
      ensures AnswerTo(waits[i], IdOf(base + i + 1)).value
              == Serve(Some(file), IdOf(base + i + 1), i * BLOCK, BlockLength(size, i))
    {
      var now := base + i + 1;
      FirstForIsOwn(waits[i].arrivals, IdOf(now));
      var r := AnswerTo(waits[i], IdOf(now)).value;
      var j: nat :| j <= now < j + TWO32 && Answers(file, size, base, i, j, r);
      IdsDiffer(j, now);
    }
  }

  /** From an honest source holding exactly size unchanged bytes, a successful fetch yields exactly those bytes,
      whatever late responses to earlier requests arrive in between. */
  lemma {:induction false} HonestFetchIsExact(file: Bytes, size: U64, base: nat, waits: seq<Wait>, data: Bytes)
    requires size < TWO63 && |waits| == NumBlocks(size) && |file| == size
    requires HonestSource(file, size, base, waits) && Assembled(data, size, base, waits, NumBlocks(size))
    ensures data == file
  {
    HonestSourceAnswers(file, size, base, waits);
    assert |data| == |file|;
    forall k | 0 <= k < |data| ensures data[k] == file[k] {
      var i := k / BLOCK;
      InBlock(size, k);
      BlocksTile(size, i);
      var r := AnswerTo(waits[i], IdOf(base + i + 1)).value;
      GuardIsExact(i * BLOCK, BlockLength(size, i), size);
      assert r == Serve(Some(file), IdOf(base + i + 1), i * BLOCK, BlockLength(size, i));
      assert r.data == file[i * BLOCK..i * BLOCK + BlockLen(size, i)];
      assert r.data[k - i * BLOCK] == data[k] && r.data[k - i * BLOCK] == file[k];
    }
  }

  lemma {:induction false} InBlock(size: U64, k: nat)
    requires size < TWO63 && k < size
    ensures k / BLOCK < NumBlocks(size) && k / BLOCK * BLOCK <= k < k / BLOCK * BLOCK + BlockLen(size, k / BLOCK)
  {
    BlockCount(size);
  }
}
