/** One peer connection as interleaved steps of its reader, its writer, the goroutine that registers it, its
    supervisor and anyone who closes it (internal/transport/conn.go, transport.go).

The shared events channel is modelled by the events put on it so far, in order; events of other connections may
come between any two. A step that is not enabled does nothing, so every sequence of steps is an interleaving. */
module Transport {
  import opened Basics
  import opened Messages
  import opened Framing

  datatype Cause = Clean | ReadFailed(e: FrameError) | FatalFrame | BadMessage(d: DecodeError)
                 | WriteFailed | Overflow | TransportClosed

  datatype Event = PeerConnected | PeerMessage(m: Message) | PeerDisconnected(cause: Cause) | Foreign

  datatype ReaderAt = Reading | AtGate(held: Message) | Sending(held: Message) | Leaving | ReaderGone
  datatype RegistrarAt = Unregistered | Listed | Announced | Opened | Rejected
  datatype SupervisorAt = NotStarted | Waiting | Deregistered | Finished

  datatype Conn = Conn(
    inbound: Bytes,              // what the peer's stream has still to yield
    reader: ReaderAt,
    writerGone: bool,
    registrar: RegistrarAt,
    supervisor: SupervisorAt,
    closed: Option<Cause>,       // the first cause given to closeWith
    inTable: bool,               // listed in the transport's connection table
    stopping: bool,              // the transport is being torn down
    lost: bool,                  // emitting PeerConnected gave up, because of the teardown
    events: seq<Event>)

  datatype Step =
    | Register                   // list the connection and start its supervisor, or reject it when stopping
    | Announce                   // emit PeerConnected
    | OpenGate                   // close(registered)
    | Read(cut: bool)            // one turn of the read loop; cut: the read fails because the connection is gone
    | Pass                       // deliver's first wait: the gate is open
    | Hand                       // deliver's second wait: the event goes out
    | Abandon                    // either wait gives up: the connection, or the transport, is closed
    | ReaderExit                 // the reader's deferred close and Done
    | Shed(cause: Cause)         // closeWith by others: overflow in Send, a failed write, teardown
    | WriterExit                 // the writer's deferred close and Done
    | Deregister                 // both loops are gone
    | Depart                     // emit PeerDisconnected
    | Lose                       // an emit gives up because the transport is closed
    | Other                      // another connection's event
    | Stop                       // teardown begins

  function Start(inbound: Bytes): (c: Conn)
  {
    Conn(inbound, Reading, false, Unregistered, NotStarted, None, false, false, false, [])
  }

  function CloseWith(c: Conn, cause: Cause): (r: Conn)
  {
    if c.closed.Some? then c else c.(closed := Some(cause))
  }

  function Emit(c: Conn, e: Event): (r: Conn) { c.(events := c.events + [e]) }

  function CauseOf(s: Stop): (r: Cause)
  {
    match s
    case Broken(e) => ReadFailed(e)
    case FatalType => FatalFrame
    case Undecodable(d) => BadMessage(d)
  }

  /** Only who was handed the connection by PeerConnected can overflow it or give its writer anything to write. */
  predicate MayShed(c: Conn, cause: Cause)
  {
    if cause.TransportClosed? then c.stopping
    else (cause.Overflow? || (cause.WriteFailed? && !c.writerGone)) && PeerConnected in c.events
  }

  function ReadTurn(c: Conn): (r: Conn)
  {
    match NextTurn(c.inbound)
    case Halt(stop) =>
      if stop == Broken(EndOfStream) then c.(reader := Leaving)
      else CloseWith(c.(reader := Leaving), CauseOf(stop))
    case Discard(used) => c.(inbound := c.inbound[used..])
    case Deliver(m, used) => c.(inbound := c.inbound[used..], reader := AtGate(m))
  }

  function Next(c: Conn, s: Step): (r: Conn)
  {
    match s
    case Register =>
      if c.registrar != Unregistered then c
      else if c.stopping then CloseWith(c.(registrar := Rejected), TransportClosed)
      else c.(registrar := Listed, inTable := true, supervisor := Waiting)
    case Announce => if c.registrar == Listed then Emit(c.(registrar := Announced), PeerConnected) else c
    case OpenGate => if c.registrar == Announced then c.(registrar := Opened) else c
    case Read(cut) =>
      if c.reader != Reading then c
      else if cut && c.closed.Some? then c.(reader := Leaving)
      else if cut then CloseWith(c.(reader := Leaving), ReadFailed(UnexpectedEnd))
      else ReadTurn(c)
    case Pass => if c.reader.AtGate? && c.registrar == Opened then c.(reader := Sending(c.reader.held)) else c
    case Hand => if c.reader.Sending? then Emit(c.(reader := Reading), PeerMessage(c.reader.held)) else c
    case Abandon =>
      if (c.reader.AtGate? || c.reader.Sending?) && (c.closed.Some? || c.stopping) then c.(reader := Leaving) else c
    case ReaderExit => if c.reader == Leaving then CloseWith(c.(reader := ReaderGone), Clean) else c
    case Shed(cause) => if MayShed(c, cause) then CloseWith(c, cause) else c
    case WriterExit => if c.closed.Some? || c.stopping then CloseWith(c.(writerGone := true), Clean) else c
    case Deregister =>
      if c.supervisor == Waiting && c.reader == ReaderGone && c.writerGone
      then c.(supervisor := Deregistered, inTable := false) else c
    case Depart =>
      if c.supervisor == Deregistered && c.closed.Some?
      then Emit(c.(supervisor := Finished), PeerDisconnected(c.closed.value)) else c
    case Lose =>
      if !c.stopping then c
      else if c.registrar == Listed then c.(registrar := Announced, lost := true)
      else if c.supervisor == Deregistered then c.(supervisor := Finished)
      else c
    case Other => Emit(c, Foreign)
    case Stop => c.(stopping := true)
  }

  function After(c: Conn, ss: seq<Step>): (r: Conn)
    decreases |ss|
  {
    if ss == [] then c else Next(After(c, ss[..|ss| - 1]), ss[|ss| - 1])
  }

  // ---- what the events say ----

  function Delivered(es: seq<Event>): (ms: seq<Message>)
    decreases |es|
  {
    if es == [] then []
    else
      var e := es[|es| - 1];
      Delivered(es[..|es| - 1]) + if e.PeerMessage? then [e.m] else []
  }

  /** Every message follows PeerConnected. */
  predicate Introduced(es: seq<Event>) { forall i | 0 <= i < |es| && es[i].PeerMessage? :: PeerConnected in es[..i] }

  /** No message and no second PeerDisconnected follows a PeerDisconnected; PeerConnected occurs at most once. */
  predicate Orderly(es: seq<Event>)
  {
    && (forall i, j | 0 <= i < j < |es| && es[i].PeerDisconnected? :: !es[j].PeerMessage? && !es[j].PeerDisconnected?)
    && (forall i, j | 0 <= i < j < |es| && es[i].PeerConnected? :: !es[j].PeerConnected?)
  }

  predicate Departed(es: seq<Event>) { exists i | 0 <= i < |es| :: es[i].PeerDisconnected? }

  /** What the reader still has to hand on: the message it holds, if any, then the rest of the stream. */
  function ToCome(c: Conn): (ms: seq<Message>)
  {
    if c.reader.AtGate? || c.reader.Sending? then [c.reader.held] + Drain(c.inbound).0 else Drain(c.inbound).0
  }

  predicate Out(r: ReaderAt) { r == Leaving || r == ReaderGone }

  // ---- the invariant ----

  /** Where the goroutines stand relative to each other. */
  predicate Phases(c: Conn)
  {
    && (c.registrar == Unregistered || c.registrar == Rejected <==> c.supervisor == NotStarted)
    && (c.inTable <==> c.supervisor == Waiting)
    && (c.reader == ReaderGone ==> c.closed.Some?)
    && (c.supervisor.Deregistered? || c.supervisor.Finished? ==> c.reader == ReaderGone && c.writerGone)
    && (c.writerGone ==> c.closed.Some?)
    && (c.lost ==> c.stopping && (c.registrar == Announced || c.registrar == Opened))
    && (c.reader.Sending? ==> c.registrar == Opened)
  }

  predicate EventsMatch(c: Conn)
  {
    && Orderly(c.events) && (!c.lost ==> Introduced(c.events))
    && (PeerConnected in c.events <==> (c.registrar == Announced || c.registrar == Opened) && !c.lost)
    && (Departed(c.events) ==> c.supervisor == Finished)
    && (c.supervisor == Finished && !c.stopping ==> Departed(c.events))
    && (forall i | 0 <= i < |c.events| && c.events[i].PeerDisconnected? :: c.closed == Some(c.events[i].cause))
  }

  /** Every message of the stream is either delivered or still to come, in order. */
  predicate Accounted(b: Bytes, c: Conn)
  {
    if Out(c.reader) then Delivered(c.events) <= Drain(b).0
    else Delivered(c.events) + ToCome(c) == Drain(b).0
  }

  predicate Inv(b: Bytes, c: Conn) { Phases(c) && EventsMatch(c) && Accounted(b, c) }

  lemma {:induction false} DeliveredSnoc(es: seq<Event>, e: Event)
    ensures Delivered(es + [e]) == Delivered(es) + if e.PeerMessage? then [e.m] else []
  {
    assert (es + [e])[..|es|] == es;
  }

  lemma {:induction false} OrderlySnoc(es: seq<Event>, e: Event)
    requires Orderly(es)
    requires e.PeerMessage? || e.PeerDisconnected? ==> !Departed(es)
    requires e.PeerConnected? ==> PeerConnected !in es
    ensures Orderly(es + [e])
    ensures Departed(es + [e]) <==> Departed(es) || e.PeerDisconnected?
  {
    var all := es + [e];
    assert all[|es|] == e;
    if Departed(es) {
      var i :| 0 <= i < |es| && es[i].PeerDisconnected?;
      assert all[i].PeerDisconnected?;
    }
    forall i, j | 0 <= i < j < |all| && all[i].PeerDisconnected? ensures !all[j].PeerMessage? && !all[j].PeerDisconnected? {
      assert es[i].PeerDisconnected?;
    }
  }

  lemma {:induction false} IntroducedSnoc(es: seq<Event>, e: Event)
    requires Introduced(es) && (e.PeerMessage? ==> PeerConnected in es)
    ensures Introduced(es + [e])
  {
    var all := es + [e];
    forall i | 0 <= i < |all| && all[i].PeerMessage? ensures PeerConnected in all[..i] {
      assert all[..i] == es[..i];
      if i < |es| { assert es[i].PeerMessage?; } else { assert es[..i] == es; }
    }
  }

  lemma {:induction false} EmitKeepsEvents(c: Conn, d: Conn, e: Event)
    requires EventsMatch(c) && d.events == c.events + [e] && c.lost == d.lost && c.stopping == d.stopping
    requires e.PeerMessage? && !c.lost ==> PeerConnected in c.events
    requires e.PeerMessage? || e.PeerDisconnected? ==> !Departed(c.events)
    requires e.PeerDisconnected? ==> c.closed == Some(e.cause)
    requires e.PeerConnected? ==> PeerConnected !in c.events
    requires c.closed == d.closed
    requires PeerConnected in c.events || e == PeerConnected
             <==> (d.registrar == Announced || d.registrar == Opened) && !d.lost
    requires d.supervisor == if e.PeerDisconnected? then Finished else c.supervisor
    ensures EventsMatch(d)
  {
    OrderlySnoc(c.events, e);
    if !c.lost { IntroducedSnoc(c.events, e); }
    forall i | 0 <= i < |d.events| && d.events[i].PeerDisconnected? ensures d.closed == Some(d.events[i].cause) {
      if i < |c.events| { assert d.events[i] == c.events[i]; }
    }
  }

  lemma {:induction false} EmitKeepsAccount(b: Bytes, c: Conn, d: Conn, e: Event)
    requires Accounted(b, c) && !e.PeerMessage? && d.events == c.events + [e]
    requires d.reader == c.reader && d.inbound == c.inbound
    ensures Accounted(b, d)
  {
    DeliveredSnoc(c.events, e);
    assert Delivered(c.events) + [] == Delivered(c.events);
  }

  lemma {:induction false} AnnounceKeeps(b: Bytes, c: Conn)
    requires Inv(b, c)
    ensures Inv(b, Next(c, Announce))
  {
    if c.registrar == Listed {
      EmitKeepsEvents(c, Next(c, Announce), PeerConnected);
      EmitKeepsAccount(b, c, Next(c, Announce), PeerConnected);
    }
  }

  lemma {:induction false} HandKeeps(b: Bytes, c: Conn)
    requires Inv(b, c)
    ensures Inv(b, Next(c, Hand))
  {
    if c.reader.Sending? {
      EmitKeepsEvents(c, Next(c, Hand), PeerMessage(c.reader.held));
      DeliveredSnoc(c.events, PeerMessage(c.reader.held));
      Regroup(Delivered(c.events), c.reader.held, Drain(c.inbound).0);
    }
  }

  lemma {:induction false} DepartKeeps(b: Bytes, c: Conn)
    requires Inv(b, c)
    ensures Inv(b, Next(c, Depart))
  {
    if c.supervisor == Deregistered {
      EmitKeepsEvents(c, Next(c, Depart), PeerDisconnected(c.closed.value));
      EmitKeepsAccount(b, c, Next(c, Depart), PeerDisconnected(c.closed.value));
    }
  }

  lemma {:induction false} OtherKeeps(b: Bytes, c: Conn)
    requires Inv(b, c)
    ensures Inv(b, Next(c, Other))
  {
    EmitKeepsEvents(c, Next(c, Other), Foreign);
    EmitKeepsAccount(b, c, Next(c, Other), Foreign);
  }

  /** A turn of the read loop touches the stream, the reader's place and, once, the cause. */
  predicate ReaderMoved(c: Conn, d: Conn)
  {
    && d == c.(inbound := d.inbound, reader := d.reader, closed := d.closed)
    && (c.closed.Some? ==> d.closed == c.closed)
    && (d.reader == Reading || d.reader.AtGate? || d.reader == Leaving)
  }

  lemma {:induction false} ReadMoves(c: Conn, cut: bool)
    requires c.reader == Reading
    ensures ReaderMoved(c, Next(c, Read(cut)))
  {
  }

  /** Taking a message off the stream leaves what is to come as it was. */
  lemma {:induction false} ReadToCome(c: Conn, cut: bool)
    requires c.reader == Reading
    ensures var d := Next(c, Read(cut)); d.reader == Leaving || ToCome(d) == ToCome(c)
  {
  }

  lemma {:induction false} MovedAccounts(b: Bytes, c: Conn, d: Conn)
    requires Accounted(b, c) && c.reader == Reading && ReaderMoved(c, d)
    requires d.reader == Leaving || ToCome(d) == ToCome(c)
    ensures Accounted(b, d)
  {
  }

  lemma {:induction false} MovedKeeps(b: Bytes, c: Conn, d: Conn)
    requires Inv(b, c) && c.reader == Reading && ReaderMoved(c, d) && Accounted(b, d)
    ensures Inv(b, d)
  {
  }

  lemma {:induction false} ReadKeeps(b: Bytes, c: Conn, cut: bool)
    requires Inv(b, c)
    ensures Inv(b, Next(c, Read(cut)))
  {
    if c.reader == Reading {
      ReadMoves(c, cut);
      ReadToCome(c, cut);
      MovedAccounts(b, c, Next(c, Read(cut)));
      MovedKeeps(b, c, Next(c, Read(cut)));
    }
  }

  lemma {:induction false} ExitsKeep(b: Bytes, c: Conn, s: Step)
    requires Inv(b, c) && (s.Abandon? || s.ReaderExit?)
    ensures Inv(b, Next(c, s))
  {
  }

  lemma {:induction false} WriterKeeps(b: Bytes, c: Conn, s: Step)
    requires Inv(b, c) && (s.Shed? || s.WriterExit? || s.Deregister?)
    ensures Inv(b, Next(c, s))
  {
  }

  lemma {:induction false} RegistrationKeeps(b: Bytes, c: Conn, s: Step)
    requires Inv(b, c) && (s.Register? || s.OpenGate?)
    ensures Inv(b, Next(c, s))
  {
  }

  lemma {:induction false} StopKeeps(b: Bytes, c: Conn, s: Step)
    requires Inv(b, c) && (s.Pass? || s.Lose? || s.Stop?)
    ensures Inv(b, Next(c, s))
  {
  }

  lemma {:induction false} NextKeeps(b: Bytes, c: Conn, s: Step)
    requires Inv(b, c)
    ensures Inv(b, Next(c, s))
  {
    match s
    case Announce => AnnounceKeeps(b, c);
    case Hand => HandKeeps(b, c);
    case Depart => DepartKeeps(b, c);
    case Other => OtherKeeps(b, c);
    case Read(cut) => ReadKeeps(b, c, cut);
    case Register => RegistrationKeeps(b, c, s);
    case OpenGate => RegistrationKeeps(b, c, s);
    case Pass => StopKeeps(b, c, s);
    case Lose => StopKeeps(b, c, s);
    case Stop => StopKeeps(b, c, s);
    case Abandon => ExitsKeep(b, c, s);
    case ReaderExit => ExitsKeep(b, c, s);
    case _ => WriterKeeps(b, c, s);
  }

  lemma {:induction false} RunKeeps(b: Bytes, ss: seq<Step>)
    ensures Inv(b, After(Start(b), ss))
  {
    if ss == [] {
      EmptyLeft(Drain(b).0);
    } else {
      RunKeeps(b, ss[..|ss| - 1]);
      NextKeeps(b, After(Start(b), ss[..|ss| - 1]), ss[|ss| - 1]);
    }
  }

  lemma {:induction false} DeliveredIsSome(es: seq<Event>)
    ensures Delivered(es) == [] <==> forall i | 0 <= i < |es| :: !es[i].PeerMessage?
  {
    if es != [] {
      var init := es[..|es| - 1];
      DeliveredIsSome(init);
      assert forall i | 0 <= i < |init| :: es[i] == init[i];
    }
  }

  /** In every interleaving: the messages handed on are a prefix of the dispatchable messages of the stream, in
      wire order, and none follows the PeerDisconnected, which carries the first cause given. */
  lemma {:induction false} EventOrder(b: Bytes, ss: seq<Step>)
    ensures var c := After(Start(b), ss);
            && Delivered(c.events) <= Drain(b).0 && Orderly(c.events)
            && forall i | 0 <= i < |c.events| && c.events[i].PeerDisconnected? :: c.closed == Some(c.events[i].cause)
  {
    RunKeeps(b, ss);
    var c := After(Start(b), ss);
  }

  /** Every message follows PeerConnected, except exactly when the teardown made PeerConnected get lost and the
      reader then still handed a message on. In particular it does in every interleaving before teardown. */
  lemma {:induction false} ConnectedComesFirst(b: Bytes, ss: seq<Step>)
    ensures var c := After(Start(b), ss);
            && (Introduced(c.events) <==> !(c.lost && Delivered(c.events) != []))
            && (!c.stopping ==> Introduced(c.events))
  {
    RunKeeps(b, ss);
    var c := After(Start(b), ss);
    DeliveredIsSome(c.events);
    if c.lost && Delivered(c.events) != [] {
      var i :| 0 <= i < |c.events| && c.events[i].PeerMessage?;
      assert PeerConnected !in c.events[..i];
    }
  }

  /** Once the supervisor and the registrar are done, with no teardown begun, both lifecycle events are out and
      the connection is off the table. */
  lemma {:induction false} EveryConnectionReports(b: Bytes, ss: seq<Step>)
    requires var c := After(Start(b), ss); !c.stopping && c.supervisor == Finished && c.registrar == Opened
    ensures var c := After(Start(b), ss);
            PeerConnected in c.events && !c.inTable && c.closed.Some? && PeerDisconnected(c.closed.value) in c.events
  {
    RunKeeps(b, ss);
    var c := After(Start(b), ss);
    var i :| 0 <= i < |c.events| && c.events[i].PeerDisconnected?;
    assert c.events[i] in c.events;
  }

  // ---- a connection nobody disturbs ----

  /** Nobody sheds the peer, cuts the connection or begins teardown. */
  predicate Calm(s: Step) { !s.Shed? && s != Read(true) && !s.Stop? }

  /** What the end of the stream is reported as; a stream that ends between two frames is a clean end. */
  function Ended(s: Stop): (c: Cause)
  {
    match s
    case Broken(e) => if e == EndOfStream then Clean else ReadFailed(e)
    case FatalType => FatalFrame
    case Undecodable(d) => BadMessage(d)
  }

  /** While the reader runs nothing is closed; once it has left, everything was handed on. */
  predicate Undisturbed(b: Bytes, c: Conn)
  {
    && !c.stopping && Accounted(b, c)
    && (if Out(c.reader)
        then && Delivered(c.events) == Drain(b).0
             && (c.closed == Some(Ended(Drain(b).1)) || (c.reader == Leaving && c.closed == None && Ended(Drain(b).1) == Clean))
        else c.closed == None && Drain(c.inbound).1 == Drain(b).1)
  }

  lemma {:induction false} CalmRead(b: Bytes, c: Conn)
    requires Undisturbed(b, c)
    ensures Undisturbed(b, Next(c, Read(false)))
  {
    if c.reader == Reading {
      ReadMoves(c, false);
      ReadToCome(c, false);
      MovedAccounts(b, c, Next(c, Read(false)));
      if NextTurn(c.inbound).Halt? { assert Delivered(c.events) + [] == Delivered(c.events); }
    }
  }

  lemma {:induction false} CalmHand(b: Bytes, c: Conn)
    requires Undisturbed(b, c)
    ensures Undisturbed(b, Next(c, Hand))
  {
    if c.reader.Sending? {
      DeliveredSnoc(c.events, PeerMessage(c.reader.held));
      Regroup(Delivered(c.events), c.reader.held, Drain(c.inbound).0);
    }
  }

  lemma {:induction false} CalmEmit(b: Bytes, c: Conn, d: Conn, e: Event)
    requires Undisturbed(b, c) && !e.PeerMessage? && d.events == c.events + [e]
    requires d.reader == c.reader && d.inbound == c.inbound && d.closed == c.closed && d.stopping == c.stopping
    ensures Undisturbed(b, d)
  {
    EmitKeepsAccount(b, c, d, e);
    DeliveredSnoc(c.events, e);
    assert Delivered(c.events) + [] == Delivered(c.events);
  }

  lemma {:induction false} CalmEmits(b: Bytes, c: Conn, s: Step)
    requires Undisturbed(b, c) && (s.Announce? || s.Depart? || s.Other?)
    ensures Undisturbed(b, Next(c, s))
  {
    if s.Announce? && c.registrar == Listed { CalmEmit(b, c, Next(c, s), PeerConnected); }
    if s.Depart? && c.supervisor == Deregistered && c.closed.Some? { CalmEmit(b, c, Next(c, s), PeerDisconnected(c.closed.value)); }
    if s.Other? { CalmEmit(b, c, Next(c, s), Foreign); }
  }

  lemma {:induction false} CalmQuiet(b: Bytes, c: Conn, s: Step)
    requires Undisturbed(b, c) && Calm(s) && !s.Read? && !s.Hand? && !s.Announce? && !s.Depart? && !s.Other?
    ensures Undisturbed(b, Next(c, s))
  {
  }

  lemma {:induction false} CalmRun(b: Bytes, ss: seq<Step>)
    requires forall s | s in ss :: Calm(s)
    ensures Undisturbed(b, After(Start(b), ss))
  {
    if ss == [] {
      EmptyLeft(Drain(b).0);
    } else {
      var init, s := ss[..|ss| - 1], ss[|ss| - 1];
      CalmRun(b, init);
      var c := After(Start(b), init);
      assert s in ss;
      match s
      case Read(cut) => CalmRead(b, c);
      case Hand => CalmHand(b, c);
      case Announce => CalmEmits(b, c, s);
      case Depart => CalmEmits(b, c, s);
      case Other => CalmEmits(b, c, s);
      case _ => CalmQuiet(b, c, s);
    }
  }

  /** In every interleaving without shedding, cuts and teardown: a PeerDisconnected comes after every message of the
      stream was handed on, and tells what ended the stream. */
  lemma {:induction false} CalmRunsTellTheEnd(b: Bytes, ss: seq<Step>)
    requires forall s | s in ss :: Calm(s)
    ensures var c := After(Start(b), ss);
            forall e | e in c.events && e.PeerDisconnected? ::
              Delivered(c.events) == Drain(b).0 && e.cause == Ended(Drain(b).1)
  {
    RunKeeps(b, ss);
    CalmRun(b, ss);
    var c := After(Start(b), ss);
    forall e | e in c.events && e.PeerDisconnected?
      ensures Delivered(c.events) == Drain(b).0 && e.cause == Ended(Drain(b).1)
    {
      var i :| 0 <= i < |c.events| && c.events[i] == e;
      assert Departed(c.events);
    }
  }

  // ---- the order of the two lifecycle events ----

  /** PeerDisconnected comes before PeerConnected. */
  predicate Reversed(es: seq<Event>)
  {
    exists i, j | 0 <= i < j < |es| :: es[i].PeerDisconnected? && es[j].PeerConnected?
  }

  /** The supervisor departs while the registrar has listed the connection but not yet announced it. */
  predicate Overtaken(c: Conn, s: Step)
  {
    s.Depart? && c.supervisor == Deregistered && c.closed.Some? && c.registrar == Listed
  }

  /** Where the k-th step is taken. */
  function Before(b: Bytes, ss: seq<Step>, k: nat): (c: Conn)
    requires k <= |ss|
  {
    After(Start(b), ss[..k])
  }

  predicate EverOvertaken(b: Bytes, ss: seq<Step>)
  {
    exists k | 0 <= k < |ss| :: Overtaken(Before(b, ss, k), ss[k])
  }

  lemma {:induction false} BeforePrefix(b: Bytes, ss: seq<Step>, k: nat)
    requires k < |ss|
    ensures Before(b, ss[..|ss| - 1], k) == Before(b, ss, k)
    ensures k < |ss| - 1 ==> ss[..|ss| - 1][k] == ss[k]
  {
    assert ss[..|ss| - 1][..k] == ss[..k];
  }

  lemma {:induction false} EverOvertakenSnoc(b: Bytes, ss: seq<Step>)
    requires ss != []
    ensures var init, s := ss[..|ss| - 1], ss[|ss| - 1];
            EverOvertaken(b, ss) <==> EverOvertaken(b, init) || Overtaken(After(Start(b), init), s)
  {
    var init := ss[..|ss| - 1];
    if k :| 0 <= k < |init| && Overtaken(Before(b, init, k), init[k]) {
      BeforePrefix(b, ss, k);
      assert Overtaken(Before(b, ss, k), ss[k]);
    }
    if k :| 0 <= k < |ss| && Overtaken(Before(b, ss, k), ss[k]) {
      BeforePrefix(b, ss, k);
      if k < |init| { assert Overtaken(Before(b, init, k), init[k]); }
    }
    if Overtaken(After(Start(b), init), ss[|ss| - 1]) { assert Overtaken(Before(b, ss, |ss| - 1), ss[|ss| - 1]); }
  }

  lemma {:induction false} ReversedSnoc(es: seq<Event>, e: Event)
    ensures Reversed(es + [e]) <==> Reversed(es) || (e.PeerConnected? && Departed(es))
    ensures Departed(es + [e]) <==> Departed(es) || e.PeerDisconnected?
  {
    var all := es + [e];
    if Reversed(es) {
      var i, j :| 0 <= i < j < |es| && es[i].PeerDisconnected? && es[j].PeerConnected?;
      assert all[i].PeerDisconnected? && all[j].PeerConnected?;
    }
    if Departed(es) {
      var i :| 0 <= i < |es| && es[i].PeerDisconnected?;
      assert all[i].PeerDisconnected? && all[|es|] == e;
    }
    if e.PeerDisconnected? { assert all[|es|].PeerDisconnected?; }
  }

  /** over: some step so far has overtaken the registrar. */
  predicate Lifecycle(c: Conn, over: bool)
  {
    && (over ==> Departed(c.events))
    && (Reversed(c.events) <==> over && PeerConnected in c.events)
    && (!over && Departed(c.events) ==> c.registrar != Listed)
  }

  lemma {:induction false} LifecycleQuiet(b: Bytes, c: Conn, s: Step, over: bool)
    requires Inv(b, c) && Lifecycle(c, over) && Next(c, s).events == c.events
    ensures Lifecycle(Next(c, s), over || Overtaken(c, s))
  {
  }

  lemma {:induction false} LifecycleEmit(b: Bytes, c: Conn, s: Step, over: bool)
    requires Inv(b, c) && Lifecycle(c, over) && (s.Announce? || s.Depart?) && Next(c, s).events != c.events
    ensures Lifecycle(Next(c, s), over || Overtaken(c, s))
  {
    ReversedSnoc(c.events, if s.Announce? then PeerConnected else PeerDisconnected(c.closed.value));
  }

  lemma {:induction false} LifecycleOther(b: Bytes, c: Conn, s: Step, over: bool)
    requires Inv(b, c) && Lifecycle(c, over) && (s.Hand? || s.Other?) && Next(c, s).events != c.events
    ensures Lifecycle(Next(c, s), over || Overtaken(c, s))
  {
    ReversedSnoc(c.events, if s.Hand? then PeerMessage(c.reader.held) else Foreign);
  }

  lemma {:induction false} OnlyFourEmit(c: Conn, s: Step)
    requires Next(c, s).events != c.events
    ensures s.Announce? || s.Depart? || s.Hand? || s.Other?
  {
  }

  lemma {:induction false} LifecycleStep(b: Bytes, c: Conn, s: Step, over: bool)
    requires Inv(b, c) && Lifecycle(c, over)
    ensures Lifecycle(Next(c, s), over || Overtaken(c, s))
  {
    if Next(c, s).events == c.events {
      LifecycleQuiet(b, c, s, over);
    } else {
      OnlyFourEmit(c, s);
      if s.Announce? || s.Depart? { LifecycleEmit(b, c, s, over); } else { LifecycleOther(b, c, s, over); }
    }
  }

  lemma {:induction false} LifecycleRun(b: Bytes, ss: seq<Step>)
    ensures Lifecycle(After(Start(b), ss), EverOvertaken(b, ss))
  {
    if ss != [] {
      var init, s := ss[..|ss| - 1], ss[|ss| - 1];
      LifecycleRun(b, init);
      RunKeeps(b, init);
      EverOvertakenSnoc(b, ss);
      LifecycleStep(b, After(Start(b), init), s, EverOvertaken(b, init));
    }
  }

  /** In every interleaving PeerDisconnected precedes PeerConnected exactly when the supervisor departed while the
      registrar stood between listing and announcing the connection, and PeerConnected then went out after all. In
      particular the order is right whenever PeerConnected is not lost and a message was handed on. */
  lemma {:induction false} LifecycleOrder(b: Bytes, ss: seq<Step>)
    ensures var c := After(Start(b), ss);
            && (Reversed(c.events) <==> EverOvertaken(b, ss) && PeerConnected in c.events)
            && (!c.lost && Delivered(c.events) != [] ==> !Reversed(c.events))
  {
    LifecycleRun(b, ss);
    RunKeeps(b, ss);
    var c := After(Start(b), ss);
    DeliveredIsSome(c.events);
    if !c.lost && Delivered(c.events) != [] {
      var i :| 0 <= i < |c.events| && c.events[i].PeerMessage?;
      MessageFixesOrder(c.events, i);
    }
  }

  lemma {:induction false} MessageFixesOrder(es: seq<Event>, i: nat)
    requires Orderly(es) && Introduced(es) && i < |es| && es[i].PeerMessage?
    ensures !Reversed(es)
  {
    var m :| 0 <= m < i && es[..i][m] == PeerConnected;
    assert es[m].PeerConnected?;
    forall j, k | 0 <= j < k < |es| && es[j].PeerDisconnected? ensures !es[k].PeerConnected? {
      assert m < i < j;
    }
  }

  // ---- two runs that mark the limits ----

  lemma {:induction false} Extend(c: Conn, ss: seq<Step>, s: Step)
    ensures After(c, ss + [s]) == Next(After(c, ss), s)
  {
    assert (ss + [s])[..|ss|] == ss;
  }

  /** The registrar may be overtaken: when the peer hangs up at once, the end is reported before the beginning. */
  lemma {:induction false} DisconnectMayComeFirst(b: Bytes)
    ensures exists ss: seq<Step> ::
              After(Start(b), ss).events == [PeerDisconnected(ReadFailed(UnexpectedEnd)), PeerConnected]
  {
    var ss: seq<Step> := [];
    var c := Start(b);
    for k := 0 to 6
      invariant c == After(Start(b), ss)
      invariant k == 0 ==> c == Start(b)
      invariant k >= 1 ==> c.registrar == Listed && !c.stopping
      invariant 1 <= k < 5 ==> c.supervisor == Waiting
      invariant k < 2 ==> c.reader == Reading
      invariant k < 6 ==> c.events == []
      invariant c.closed == if k >= 2 then Some(ReadFailed(UnexpectedEnd)) else None
      invariant k == 2 ==> c.reader == Leaving
      invariant k >= 3 ==> c.reader == ReaderGone
      invariant k >= 4 ==> c.writerGone
      invariant k == 5 ==> c.supervisor == Deregistered
      invariant k == 6 ==> c.events == [PeerDisconnected(ReadFailed(UnexpectedEnd))]
    {
      var s := [Register, Read(true), ReaderExit, WriterExit, Deregister, Depart][k];
      Extend(Start(b), ss, s);
      ss := ss + [s];
      c := Next(c, s);
    }
    Extend(Start(b), ss, Announce);
    assert After(Start(b), ss + [Announce]).events == [PeerDisconnected(ReadFailed(UnexpectedEnd)), PeerConnected];
  }

  lemma {:induction false} OpensUnannounced(b: Bytes) returns (ss: seq<Step>)
    ensures var c := After(Start(b), ss);
            c.registrar == Opened && c.reader == Reading && c.inbound == b && c.events == []
  {
    ss := [];
    var c := Start(b);
    for k := 0 to 4
      invariant c == After(Start(b), ss) && c.reader == Reading && c.inbound == b && c.events == []
      invariant c.registrar == [Unregistered, Listed, Listed, Announced, Opened][k] && (c.stopping <==> k >= 2)
    {
      var s := [Register, Stop, Lose, OpenGate][k];
      Extend(Start(b), ss, s);
      ss := ss + [s];
      c := Next(c, s);
    }
  }

  lemma {:induction false} HandsOn(c: Conn, m: Message, used: nat)
    requires c.registrar == Opened && c.reader == Reading && NextTurn(c.inbound) == Deliver(m, used)
    ensures Next(Next(Next(c, Read(false)), Pass), Hand).events == c.events + [PeerMessage(m)]
  {
  }

  lemma {:induction false} HandsOnNext(b: Bytes, ss: seq<Step>, m: Message, used: nat) returns (more: seq<Step>)
    requires var c := After(Start(b), ss);
             c.registrar == Opened && c.reader == Reading && NextTurn(c.inbound) == Deliver(m, used)
    ensures After(Start(b), more).events == After(Start(b), ss).events + [PeerMessage(m)]
  {
    HandsOn(After(Start(b), ss), m, used);
    Extend(Start(b), ss, Read(false));
    Extend(Start(b), ss + [Read(false)], Pass);
    Extend(Start(b), ss + [Read(false)] + [Pass], Hand);
    more := ss + [Read(false)] + [Pass] + [Hand];
  }

  /** During teardown a message can reach the events channel although PeerConnected never does. */
  lemma {:induction false} TeardownMayLoseTheIntroduction(m: Message)
    requires Writable(Sent(m))
    ensures exists ss: seq<Step> :: After(Start(FrameOf(Sent(m))), ss).events == [PeerMessage(m)]
  {
    var b := FrameOf(Sent(m));
    assert b + [] == b;
    TurnOfFrame(Sent(m), []);
    var ss := OpensUnannounced(b);
    var more := HandsOnNext(b, ss, m, |b|);
    assert After(Start(b), more).events == [PeerMessage(m)];
  }
}
