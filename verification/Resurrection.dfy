/** Whole runs of two peers at one path (internal/reconcile/engine.go, tombstone.go): does a deleted file come back?

Each peer has its recorded leaf, its view of the other's index, the in-flight mark of the path and the puller
tasks still pending. Channels are in order; at most one connection exists at a time. An event is one step of a
handler, or of the environment (queue full, I/O failure, cancelled task, lost connection); a turn is what the loop
does before it looks at its channels again, and a run is a list of turns. What is not enabled does nothing. Nobody
authors the path during the run. The disk is not modelled: a successful completion stands for the puller's rename,
after any removal of the file so far, and for the loop's handling of its report. */
module Resurrection {
  import opened Basics
  import opened Paths
  import opened VersionVectors
  import opened FileInfos
  import opened Conflict
  import opened Resolve
  import opened Tombstones

  datatype Msg = Full(leaf: Option<FileInfo>) | Delta(update: FileInfo)

  /** A puller task: install a live leaf; apply a deletion (second half of a coupled task); or lay down a copy kept
      from a conflict at another path (first half of one), which is advertised and never marked in flight. */
  datatype Task = Fetch(leaf: FileInfo) | Bury(leaf: FileInfo) | Keep(leaf: FileInfo)

  datatype Side = Side(
    rec: Option<FileInfo>, index: Option<FileInfo>, inflight: bool, attached: bool, joined: bool, pending: seq<Task>)

  datatype State = State(a: Side, b: Side, toA: seq<Msg>, toB: seq<Msg>)

  datatype Who = A | B

  /** How a reconcile deals with the path: it gives up (a record has no tree); it collects tombstones but leaves the
      verdict (a clash, a full queue); it carries the verdict out; or it couples a deletion to a task. */
  datatype How = GiveUp | Skip | Now | Defer

  datatype Event =
    | Link                                  // a fresh connection, once both ends have let go of the last
    | Attach(w: Who, hello: bool)           // PeerConnected; hello: roots differed, so the index is sent
    | Detach(w: Who)                        // PeerDisconnected
    | Deliver(w: Who)                       // INDEX or INDEX_UPDATE: the view of the peer changes
    | Reconcile(w: Who, how: How)           // the resolver's verdict
    | Collect(w: Who)                       // tombstone GC
    | Complete(w: Who, k: nat, ok: bool)    // the completion of pending task k is recorded
    | Drop(w: Who, k: nat)                  // pending task k is cancelled without a report
    | Touch(w: Who, mtime: I64)             // mtime-only update
    | Adopt(w: Who)                         // cold-start reseed of unauthored, identical content
    | Preserve(w: Who, leaf: FileInfo)      // a conflict at another path keeps its losing copy here

  function SideOf(s: State, w: Who): Side { if w == A then s.a else s.b }
  function Put(s: State, w: Who, x: Side): State { if w == A then s.(a := x) else s.(b := x) }
  function Inbox(s: State, w: Who): seq<Msg> { if w == A then s.toA else s.toB }
  function PutInbox(s: State, w: Who, m: seq<Msg>): State { if w == A then s.(toA := m) else s.(toB := m) }

  function LeafIn(m: Msg): Option<FileInfo> { if m.Full? then m.leaf else Some(m.update) }

  /** w sends m: only an attached peer is sent to. */
  function Send(s: State, w: Who, m: Msg): State
  {
    if !SideOf(s, w).attached then s
    else if w == A then s.(toB := s.toB + [m]) else s.(toA := s.toA + [m])
  }

  /** applyTombstone: record it, and advertise it unless it was already recorded. */
  function ApplyTomb(s: State, w: Who, t: FileInfo): State
  {
    var was := SideOf(s, w).rec;
    var s' := Put(s, w, SideOf(s, w).(rec := Some(t)));
    if was.Some? && was.value.deleted && was.value.version == t.version then s' else Send(s', w, Delta(t))
  }

  function Enqueue(s: State, w: Who, task: Task): State
  {
    var x := SideOf(s, w);
    if x.inflight then s else Put(s, w, x.(inflight := true, pending := x.pending + [task]))
  }

  function Execute(N: Naming, s: State, w: Who, how: How): State
  {
    var x := SideOf(s, w);
    if how == GiveUp || how == Skip then s
    else
      match Decide(N, x.rec, x.index)
      case NoOp => s
      case Install(f) =>
        if x.inflight then s
        else if !f.deleted then Enqueue(s, w, Fetch(f))
        else if how == Now || (x.rec.Some? && x.rec.value.deleted) then ApplyTomb(s, w, f)
        else Enqueue(s, w, Bury(f))
      case KeepBoth(win, _) =>
        if !win.deleted then Enqueue(s, w, Fetch(win))
        else if how == Now then ApplyTomb(s, w, win)
        else Enqueue(s, w, Bury(win))
  }

  function Without1(q: seq<Task>, k: nat): seq<Task>
    requires k < |q|
  {
    q[..k] + q[k + 1..]
  }

  function Step(N: Naming, s: State, e: Event): (r: State)
  {
    match e
    case Link =>
      if s.a.attached || s.b.attached then s
      else State(s.a.(joined := false), s.b.(joined := false), [], [])
    case Attach(w, hello) =>
      var x := SideOf(s, w);
      if x.attached || x.joined then s
      else
        var s' := Put(s, w, x.(attached := true, joined := true, index := None, inflight := false));
        if hello then Send(s', w, Full(x.rec)) else s'
    case Detach(w) => Put(s, w, SideOf(s, w).(attached := false))
    case Deliver(w) =>
      if Inbox(s, w) == [] then s
      else
        var s' := PutInbox(s, w, Inbox(s, w)[1..]);
        if SideOf(s, w).attached then Put(s', w, SideOf(s, w).(index := LeafIn(Inbox(s, w)[0]))) else s'
    case Reconcile(w, how) => if SideOf(s, w).attached then Execute(N, s, w, how) else s
    case Collect(w) =>
      var x := SideOf(s, w);
      if x.attached && x.rec.Some? && x.rec.value.deleted && Acknowledges(x.index, x.rec.value)
      then Put(s, w, x.(rec := None)) else s
    case Complete(w, k, ok) =>
      var x := SideOf(s, w);
      if k >= |x.pending| then s
      else
        var task := x.pending[k];
        var s' := Put(s, w, x.(pending := Without1(x.pending, k), inflight := false));
        if !ok then s'
        else if task.Bury? then ApplyTomb(s', w, task.leaf)
        else
          var r := Put(s', w, SideOf(s', w).(rec := Some(task.leaf)));
          if task.Keep? then Send(r, w, Delta(task.leaf)) else r
    case Drop(w, k) =>
      var x := SideOf(s, w);
      if k >= |x.pending| then s else Put(s, w, x.(pending := Without1(x.pending, k)))
    case Touch(w, mtime) =>
      var x := SideOf(s, w);
      if x.rec.None? then s else Put(s, w, x.(rec := Some(x.rec.value.(mtime := mtime))))
    case Adopt(w) =>
      var x := SideOf(s, w);
      if x.attached && x.rec.Some? && !x.rec.value.deleted && x.rec.value.version == []
         && x.index.Some? && !x.index.value.deleted && x.index.value.contentHash == x.rec.value.contentHash
      then
        var f := x.rec.value.(version := x.index.value.version);
        Send(Put(s, w, x.(rec := Some(f))), w, Delta(f))
      else s
    case Preserve(w, leaf) =>
      var x := SideOf(s, w);
      if x.attached then Put(s, w, x.(pending := x.pending + [Keep(leaf)])) else s
  }

  function RunTo(N: Naming, s: State, es: seq<Event>, k: nat): (r: State)
    requires k <= |es|
  {
    if k == 0 then s else Step(N, RunTo(N, s, es, k - 1), es[k - 1])
  }

  // ---- superseded versions and the tombstone ----

  /** A version the tombstone t (authored by device d) supersedes: t knows all of it, and more of d. */
  predicate Old(t: FileInfo, d: ShortID, f: FileInfo)
  {
    Sane(f) && Leq(f.version, t.version) && At(f.version, d) < At(t.version, d)
  }

  predicate IsTomb(t: FileInfo, f: FileInfo) { Sane(f) && f.deleted && f.version == t.version }

  predicate Known(t: FileInfo, d: ShortID, f: FileInfo) { Old(t, d, f) || IsTomb(t, f) }

  predicate OldOpt(t: FileInfo, d: ShortID, f: Option<FileInfo>) { f.Some? && Old(t, d, f.value) }
  predicate TombOpt(t: FileInfo, f: Option<FileInfo>) { f.Some? && IsTomb(t, f.value) }
  predicate KnownOpt(t: FileInfo, d: ShortID, f: Option<FileInfo>) { f.Some? ==> Known(t, d, f.value) }

  lemma {:induction false} TombOverOld(N: Naming, t: FileInfo, d: ShortID, x: FileInfo, f: FileInfo)
    requires IsTomb(t, x) && Old(t, d, f)
    ensures Order(x.version, f.version) == Dominates && Order(f.version, x.version) == DominatedBy
    ensures ResolvePair(N, x, f) == NoOp
    ensures ResolvePair(N, f, x) == Install(x) && !IsTomb(t, f)
  {
    if Leq(x.version, f.version) { LeqAt(x.version, f.version, d); }
    MergedAbsorbs(f.version, x.version);
  }

  lemma {:induction false} TombOverTomb(N: Naming, t: FileInfo, x: FileInfo, y: FileInfo)
    requires IsTomb(t, x) && IsTomb(t, y)
    ensures ResolvePair(N, x, y) == NoOp && Order(x.version, y.version) == Equal
  {
    LeqReflexive(x.version);
  }

  lemma {:induction false} MergedIsOld(t: FileInfo, d: ShortID, f: FileInfo, g: FileInfo)
    requires Old(t, d, f) && Old(t, d, g) && Canonical(t.version)
    ensures Old(t, d, f.(version := Merged(f.version, g.version)))
    ensures Old(t, d, g.(version := Merged(f.version, g.version)))
  {
    MergedIsLub(f.version, g.version);
  }

  lemma {:induction false} OldConflict(N: Naming, t: FileInfo, d: ShortID, f: FileInfo, g: FileInfo)
    requires Old(t, d, f) && Old(t, d, g)
    ensures var p := ConflictPlan(N, f, g); !p.Install? && (p.KeepBoth? ==> Old(t, d, p.winner))
  {
  }

  lemma {:induction false} PlanShape(N: Naming, f: FileInfo, g: FileInfo)
    ensures var m := Merged(f.version, g.version);
            ResolvePair(N, f, g) in {NoOp, Install(f.(version := m)), Install(g.(version := m)), ConflictPlan(N, f, g)}
  {
  }

  lemma {:induction false} OldPlan(N: Naming, t: FileInfo, d: ShortID, f: FileInfo, g: FileInfo, p: Plan)
    requires Old(t, d, f) && Old(t, d, g) && Canonical(t.version)
    requires var m := Merged(f.version, g.version);
             p in {NoOp, Install(f.(version := m)), Install(g.(version := m)), ConflictPlan(N, f, g)}
    ensures p.Install? ==> Old(t, d, p.leaf)
    ensures p.KeepBoth? ==> Old(t, d, p.winner)
  {
    MergedIsOld(t, d, f, g);
    OldConflict(N, t, d, f, g);
  }

  lemma {:induction false} OldOverOld(N: Naming, t: FileInfo, d: ShortID, f: FileInfo, g: FileInfo)
    requires Old(t, d, f) && Old(t, d, g) && Canonical(t.version)
    ensures var p := ResolvePair(N, f, g);
            && (p.Install? ==> Old(t, d, p.leaf))
            && (p.KeepBoth? ==> Old(t, d, p.winner))
  {
    PlanShape(N, f, g);
    OldPlan(N, t, d, f, g, ResolvePair(N, f, g));
  }

  /** What a side's verdict can be: nothing, the tombstone itself, or another superseded leaf. */
  lemma {:induction false} Verdicts(N: Naming, t: FileInfo, d: ShortID, rec: Option<FileInfo>, index: Option<FileInfo>)
    requires Canonical(t.version) && KnownOpt(t, d, rec) && KnownOpt(t, d, index)
    ensures var p := Decide(N, rec, index);
            && (TombOpt(t, rec) ==> p == NoOp)
            && (rec.None? && !OldOpt(t, d, index) ==> p == NoOp)
            && (p.Install? ==> if TombOpt(t, index) then p.leaf == index.value else Old(t, d, p.leaf))
            && (p.KeepBoth? ==> Old(t, d, p.winner))
  {
    if index.Some? && rec.Some? {
      if IsTomb(t, rec.value) {
        if IsTomb(t, index.value) { TombOverTomb(N, t, rec.value, index.value); }
        else { TombOverOld(N, t, d, rec.value, index.value); }
      } else if IsTomb(t, index.value) {
        TombOverOld(N, t, d, index.value, rec.value);
      } else {
        OldOverOld(N, t, d, rec.value, index.value);
      }
    }
  }

  // ---- the invariant ----

  /** What B's past holds: it has received the tombstone; it has recorded it. */
  datatype Past = Past(seen: bool, buried: bool)

  function Remember(t: FileInfo, h: Past, s: State): Past
  {
    Past(h.seen || TombOpt(t, s.b.index), h.buried || TombOpt(t, s.b.rec))
  }

  predicate NoOld(t: FileInfo, d: ShortID, q: seq<Msg>)
  {
    forall i | 0 <= i < |q| :: !OldOpt(t, d, LeafIn(q[i]))
  }

  predicate NoTomb(t: FileInfo, q: seq<Msg>)
  {
    forall i | 0 <= i < |q| :: !TombOpt(t, LeafIn(q[i]))
  }

  /** Known leaves only, and nothing superseded behind a tombstone. */
  predicate Ordered(t: FileInfo, d: ShortID, q: seq<Msg>)
  {
    && (forall i | 0 <= i < |q| :: KnownOpt(t, d, LeafIn(q[i])))
    && (forall i, j | 0 <= i < j < |q| :: TombOpt(t, LeafIn(q[i])) ==> !OldOpt(t, d, LeafIn(q[j])))
  }

  predicate AllOld(t: FileInfo, d: ShortID, q: seq<Task>) { forall i | 0 <= i < |q| :: Old(t, d, q[i].leaf) }
  predicate AllKnown(t: FileInfo, d: ShortID, q: seq<Task>) { forall i | 0 <= i < |q| :: Known(t, d, q[i].leaf) }

  predicate InvA(t: FileInfo, d: ShortID, s: State, h: Past)
  {
    && (s.a.rec.None? || IsTomb(t, s.a.rec.value)) && KnownOpt(t, d, s.a.index)
    && !s.a.inflight && AllOld(t, d, s.a.pending) && Ordered(t, d, s.toA)
    && (s.a.rec.None? ==> h.buried && NoOld(t, d, s.toA) && !OldOpt(t, d, s.a.index))
    && (TombOpt(t, s.a.index) ==> h.buried && NoOld(t, d, s.toA))
    && (!h.buried ==> NoTomb(t, s.toA))
  }

  predicate InvB(t: FileInfo, d: ShortID, s: State, h: Past)
  {
    && KnownOpt(t, d, s.b.rec) && KnownOpt(t, d, s.b.index) && AllKnown(t, d, s.b.pending) && Ordered(t, d, s.toB)
    && (h.seen ==> NoOld(t, d, s.toB) && !OldOpt(t, d, s.b.index))
    && (!h.seen ==> !TombOpt(t, s.b.index) && AllOld(t, d, s.b.pending))
    && (h.buried ==> h.seen && !OldOpt(t, d, s.b.rec) && !s.b.inflight)
    && (!h.buried ==> !TombOpt(t, s.b.rec))
  }

  predicate Inv(t: FileInfo, d: ShortID, s: State, h: Past)
  {
    Sane(t) && t.deleted && InvA(t, d, s, h) && InvB(t, d, s, h)
  }

  /** The event records a superseded version: the successful completion of its task at A, or at B after B buried the
      path. */
  predicate Stale(t: FileInfo, d: ShortID, s: State, h: Past, e: Event)
  {
    && e.Complete? && e.ok && e.k < |SideOf(s, e.w).pending|
    && Old(t, d, SideOf(s, e.w).pending[e.k].leaf)
    && (e.w == A || h.buried)
  }

  /** The in-flight mark never covers such a task: whatever marked the path when the task was queued (if anything
      did), the mark is gone by now. */
  lemma {:induction false} StaleIsUnmarked(t: FileInfo, d: ShortID, s: State, h: Past, e: Event)
    requires Inv(t, d, s, h) && Stale(t, d, s, h, e)
    ensures !SideOf(s, e.w).inflight
  {
  }

  /** No new version comes into being: a copy kept at this path is of a superseded version. */
  predicate Harmless(t: FileInfo, d: ShortID, e: Event) { e.Preserve? ==> Old(t, d, e.leaf) }

  lemma {:induction false} OldNotTomb(t: FileInfo, d: ShortID, f: FileInfo)
    requires Old(t, d, f)
    ensures !IsTomb(t, f)
  {
  }

  // ---- preservation, event by event ----

  lemma {:induction false} OrderedSnoc(t: FileInfo, d: ShortID, q: seq<Msg>, m: Msg)
    requires Ordered(t, d, q) && KnownOpt(t, d, LeafIn(m))
    requires OldOpt(t, d, LeafIn(m)) ==> NoTomb(t, q)
    ensures Ordered(t, d, q + [m])
    ensures NoOld(t, d, q) && !OldOpt(t, d, LeafIn(m)) ==> NoOld(t, d, q + [m])
    ensures NoTomb(t, q) && !TombOpt(t, LeafIn(m)) ==> NoTomb(t, q + [m])
  {
  }

  lemma {:induction false} OrderedTail(t: FileInfo, d: ShortID, q: seq<Msg>)
    requires Ordered(t, d, q) && q != []
    ensures Ordered(t, d, q[1..])
    ensures TombOpt(t, LeafIn(q[0])) ==> NoOld(t, d, q[1..])
    ensures NoOld(t, d, q) ==> NoOld(t, d, q[1..]) && !OldOpt(t, d, LeafIn(q[0]))
    ensures NoTomb(t, q) ==> NoTomb(t, q[1..]) && !TombOpt(t, LeafIn(q[0]))
  {
  }

  /** A may send what it has recorded: the tombstone, or nothing. */
  lemma {:induction false} SendFromA(t: FileInfo, d: ShortID, s: State, h: Past, m: Msg)
    requires Inv(t, d, s, h) && KnownOpt(t, d, LeafIn(m)) && !OldOpt(t, d, LeafIn(m))
    ensures Inv(t, d, Send(s, A, m), h)
  {
    OrderedSnoc(t, d, s.toB, m);
  }

  /** B may send the tombstone (or nothing) once it is buried, and superseded leaves only before. */
  lemma {:induction false} SendFromB(t: FileInfo, d: ShortID, s: State, h: Past, m: Msg)
    requires Inv(t, d, s, h) && KnownOpt(t, d, LeafIn(m))
    requires if h.buried then !OldOpt(t, d, LeafIn(m)) else !TombOpt(t, LeafIn(m))
    ensures Inv(t, d, Send(s, B, m), h)
  {
    OrderedSnoc(t, d, s.toA, m);
  }

  /** B records f. */
  lemma {:induction false} RecordB(t: FileInfo, d: ShortID, s: State, h: Past, f: FileInfo)
    requires Inv(t, d, s, h)
    requires if IsTomb(t, f) then h.seen && !s.b.inflight else Old(t, d, f) && !h.buried
    ensures var s' := Put(s, B, s.b.(rec := Some(f))); Inv(t, d, s', Remember(t, h, s'))
  {
    if Old(t, d, f) { OldNotTomb(t, d, f); }
  }

  /** B records f and advertises it. */
  lemma {:induction false} RecordAndSendB(t: FileInfo, d: ShortID, s: State, h: Past, f: FileInfo)
    requires Inv(t, d, s, h)
    requires if IsTomb(t, f) then h.seen && !s.b.inflight else Old(t, d, f) && !h.buried
    ensures var s' := Send(Put(s, B, s.b.(rec := Some(f))), B, Delta(f)); Inv(t, d, s', Remember(t, h, s'))
  {
    RecordB(t, d, s, h, f);
    var mid := Put(s, B, s.b.(rec := Some(f)));
    if Old(t, d, f) { OldNotTomb(t, d, f); }
    SendFromB(t, d, mid, Remember(t, h, mid), Delta(f));
  }

  lemma {:induction false} ApplyTombB(t: FileInfo, d: ShortID, s: State, h: Past, f: FileInfo)
    requires Inv(t, d, s, h) && f.deleted
    requires if IsTomb(t, f) then h.seen && !s.b.inflight else Old(t, d, f) && !h.buried
    ensures var s' := ApplyTomb(s, B, f); Inv(t, d, s', Remember(t, h, s'))
  {
    RecordB(t, d, s, h, f);
    RecordAndSendB(t, d, s, h, f);
  }

  lemma {:induction false} EnqueueB(t: FileInfo, d: ShortID, s: State, h: Past, task: Task)
    requires Inv(t, d, s, h) && Known(t, d, task.leaf) && !h.buried
    requires IsTomb(t, task.leaf) ==> h.seen
    ensures Inv(t, d, Enqueue(s, B, task), h)
  {
  }

  /** A side carries out a verdict: it installs f, or applies it as a deletion, unless it drops it. */
  lemma {:induction false} CarryOutKeeps(t: FileInfo, d: ShortID, s: State, h: Past, f: FileInfo)
    requires Inv(t, d, s, h) && Known(t, d, f) && !h.buried && (IsTomb(t, f) ==> h.seen)
    ensures Inv(t, d, Enqueue(s, B, Fetch(f)), h) && Inv(t, d, Enqueue(s, B, Bury(f)), h)
    ensures f.deleted && (IsTomb(t, f) ==> !s.b.inflight) ==>
              var s' := ApplyTomb(s, B, f); Inv(t, d, s', Remember(t, h, s'))
  {
    if Old(t, d, f) { OldNotTomb(t, d, f); }
    EnqueueB(t, d, s, h, Fetch(f));
    EnqueueB(t, d, s, h, Bury(f));
    if f.deleted && (IsTomb(t, f) ==> !s.b.inflight) { ApplyTombB(t, d, s, h, f); }
  }

  function LeafOf(p: Plan): FileInfo
    requires p != NoOp
  {
    if p.Install? then p.leaf else p.winner
  }

  /** A, holding the tombstone or nothing, has nothing to do; B has only before it has buried the path. */
  lemma {:induction false} VerdictsUnderInv(N: Naming, t: FileInfo, d: ShortID, s: State, h: Past)
    requires Inv(t, d, s, h)
    ensures Decide(N, s.a.rec, s.a.index) == NoOp
    ensures var p := Decide(N, s.b.rec, s.b.index);
            p != NoOp ==> !h.buried && Known(t, d, LeafOf(p)) && (IsTomb(t, LeafOf(p)) ==> h.seen && p.Install?)
  {
    Verdicts(N, t, d, s.a.rec, s.a.index);
    Verdicts(N, t, d, s.b.rec, s.b.index);
    var p := Decide(N, s.b.rec, s.b.index);
    if p != NoOp && Old(t, d, LeafOf(p)) { OldNotTomb(t, d, LeafOf(p)); }
  }

  lemma {:induction false} ReconcileKeeps(N: Naming, t: FileInfo, d: ShortID, s: State, h: Past, w: Who, how: How)
    requires Inv(t, d, s, h)
    ensures var s' := Execute(N, s, w, how); Inv(t, d, s', Remember(t, h, s'))
  {
    VerdictsUnderInv(N, t, d, s, h);
    if w == B {
      var p := Decide(N, s.b.rec, s.b.index);
      if p != NoOp { CarryOutKeeps(t, d, s, h, LeafOf(p)); }
    }
  }

  lemma {:induction false} CollectKeeps(t: FileInfo, d: ShortID, s: State, h: Past, w: Who, N: Naming)
    requires Inv(t, d, s, h)
    ensures var s' := Step(N, s, Collect(w)); Inv(t, d, s', Remember(t, h, s'))
  {
    var x := SideOf(s, w);
    if w == A && x.rec.Some? && x.index.Some? && Old(t, d, x.index.value) {
      TombOverOld(N, t, d, x.rec.value, x.index.value);
    }
  }

  lemma {:induction false} DeliverKeeps(t: FileInfo, d: ShortID, s: State, h: Past, w: Who, N: Naming)
    requires Inv(t, d, s, h)
    ensures var s' := Step(N, s, Deliver(w)); Inv(t, d, s', Remember(t, h, s'))
  {
    if Inbox(s, w) != [] {
      OrderedTail(t, d, Inbox(s, w));
      if OldOpt(t, d, LeafIn(Inbox(s, w)[0])) { OldNotTomb(t, d, LeafIn(Inbox(s, w)[0]).value); }
    }
  }

  lemma {:induction false} PendingWithout(t: FileInfo, d: ShortID, q: seq<Task>, k: nat)
    requires k < |q|
    ensures AllOld(t, d, q) ==> AllOld(t, d, Without1(q, k))
    ensures AllKnown(t, d, q) ==> AllKnown(t, d, Without1(q, k))
  {
    forall i | 0 <= i < |q| - 1 ensures Without1(q, k)[i] == if i < k then q[i] else q[i + 1] {}
  }

  /** A completion takes its task off the list and the mark off the path. */
  lemma {:induction false} TakenOffKeeps(t: FileInfo, d: ShortID, s: State, h: Past, w: Who, k: nat)
    requires Inv(t, d, s, h) && k < |SideOf(s, w).pending|
    ensures var x := SideOf(s, w);
            Inv(t, d, Put(s, w, x.(pending := Without1(x.pending, k), inflight := false)), h)
  {
    PendingWithout(t, d, SideOf(s, w).pending, k);
  }

  lemma {:induction false} CompleteAtBKeeps(N: Naming, t: FileInfo, d: ShortID, s: State, h: Past, k: nat)
    requires Inv(t, d, s, h) && k < |s.b.pending| && (h.buried ==> !Old(t, d, s.b.pending[k].leaf))
    ensures var s' := Step(N, s, Complete(B, k, true)); Inv(t, d, s', Remember(t, h, s'))
  {
    var task := s.b.pending[k];
    var mid := Put(s, B, s.b.(pending := Without1(s.b.pending, k), inflight := false));
    TakenOffKeeps(t, d, s, h, B, k);
    if Old(t, d, task.leaf) { OldNotTomb(t, d, task.leaf); }
    match task
    case Fetch(f) => RecordB(t, d, mid, h, f);
    case Keep(f) => RecordAndSendB(t, d, mid, h, f);
    case Bury(f) =>
      RecordB(t, d, mid, h, f);
      RecordAndSendB(t, d, mid, h, f);
  }

  lemma {:induction false} CompleteKeeps(N: Naming, t: FileInfo, d: ShortID, s: State, h: Past, w: Who, k: nat, ok: bool)
    requires Inv(t, d, s, h) && !Stale(t, d, s, h, Complete(w, k, ok))
    ensures var s' := Step(N, s, Complete(w, k, ok)); Inv(t, d, s', Remember(t, h, s'))
  {
    if k < |SideOf(s, w).pending| {
      TakenOffKeeps(t, d, s, h, w, k);
      if ok { CompleteAtBKeeps(N, t, d, s, h, k); }
    }
  }

  lemma {:induction false} PreserveKeeps(N: Naming, t: FileInfo, d: ShortID, s: State, h: Past, w: Who, leaf: FileInfo)
    requires Inv(t, d, s, h) && Old(t, d, leaf)
    ensures var s' := Step(N, s, Preserve(w, leaf)); Inv(t, d, s', Remember(t, h, s'))
  {
    OldNotTomb(t, d, leaf);
  }

  lemma {:induction false} AttachKeeps(N: Naming, t: FileInfo, d: ShortID, s: State, h: Past, w: Who, hello: bool)
    requires Inv(t, d, s, h)
    ensures var s' := Step(N, s, Attach(w, hello)); Inv(t, d, s', Remember(t, h, s'))
  {
    var x := SideOf(s, w);
    if !x.attached && !x.joined {
      var mid := Put(s, w, x.(attached := true, joined := true, index := None, inflight := false));
      assert Inv(t, d, mid, h);
      if OldOpt(t, d, x.rec) { OldNotTomb(t, d, x.rec.value); }
      if w == A { SendFromA(t, d, mid, h, Full(x.rec)); } else { SendFromB(t, d, mid, h, Full(x.rec)); }
    }
  }

  lemma {:induction false} AdoptKeeps(N: Naming, t: FileInfo, d: ShortID, s: State, h: Past, w: Who)
    requires Inv(t, d, s, h)
    ensures var s' := Step(N, s, Adopt(w)); Inv(t, d, s', Remember(t, h, s'))
  {
    var x := SideOf(s, w);
    if w == B && x.rec.Some? && !x.rec.value.deleted && x.index.Some? && !x.index.value.deleted {
      var f := x.rec.value.(version := x.index.value.version);
      var mid := Put(s, B, x.(rec := Some(f)));
      assert Old(t, d, f);
      OldNotTomb(t, d, f);
      assert Inv(t, d, mid, h);
      SendFromB(t, d, mid, h, Delta(f));
    }
  }

  lemma {:induction false} DropKeeps(N: Naming, t: FileInfo, d: ShortID, s: State, h: Past, w: Who, k: nat)
    requires Inv(t, d, s, h)
    ensures var s' := Step(N, s, Drop(w, k)); Inv(t, d, s', Remember(t, h, s'))
  {
    if k < |SideOf(s, w).pending| { PendingWithout(t, d, SideOf(s, w).pending, k); }
  }

  lemma {:induction false} TouchKeeps(N: Naming, t: FileInfo, d: ShortID, s: State, h: Past, w: Who, mtime: I64)
    requires Inv(t, d, s, h)
    ensures var s' := Step(N, s, Touch(w, mtime)); Inv(t, d, s', Remember(t, h, s'))
  {
  }

  lemma {:induction false} LinkKeeps(N: Naming, t: FileInfo, d: ShortID, s: State, h: Past, e: Event)
    requires Inv(t, d, s, h) && (e.Link? || e.Detach?)
    ensures var s' := Step(N, s, e); Inv(t, d, s', Remember(t, h, s'))
  {
  }

  /** Every event but the completion of a superseded task keeps the invariant. */
  lemma {:induction false} StepKeeps(N: Naming, t: FileInfo, d: ShortID, s: State, h: Past, e: Event)
    requires Inv(t, d, s, h) && Harmless(t, d, e) && !Stale(t, d, s, h, e)
    ensures var s' := Step(N, s, e); Inv(t, d, s', Remember(t, h, s'))
  {
    match e
    case Attach(w, hello) => AttachKeeps(N, t, d, s, h, w, hello);
    case Deliver(w) => DeliverKeeps(t, d, s, h, w, N);
    case Reconcile(w, how) => ReconcileKeeps(N, t, d, s, h, w, how);
    case Collect(w) => CollectKeeps(t, d, s, h, w, N);
    case Complete(w, k, ok) => CompleteKeeps(N, t, d, s, h, w, k, ok);
    case Adopt(w) => AdoptKeeps(N, t, d, s, h, w);
    case Drop(w, k) => DropKeeps(N, t, d, s, h, w, k);
    case Touch(w, mtime) => TouchKeeps(N, t, d, s, h, w, mtime);
    case Preserve(w, leaf) => PreserveKeeps(N, t, d, s, h, w, leaf);
    case _ => LinkKeeps(N, t, d, s, h, e);
  }

  function PastTo(N: Naming, t: FileInfo, s: State, h: Past, es: seq<Event>, k: nat): (r: Past)
    requires k <= |es|
  {
    if k == 0 then h else Remember(t, PastTo(N, t, s, h, es, k - 1), RunTo(N, s, es, k))
  }

  predicate StaleAt(N: Naming, t: FileInfo, d: ShortID, s: State, h: Past, es: seq<Event>, k: nat)
    requires k < |es|
  {
    Stale(t, d, RunTo(N, s, es, k), PastTo(N, t, s, h, es, k), es[k])
  }

  lemma {:induction false} CleanEventsKeep(N: Naming, t: FileInfo, d: ShortID, s: State, h: Past, es: seq<Event>, k: nat)
    requires Inv(t, d, s, h) && k <= |es| && forall i | 0 <= i < |es| :: Harmless(t, d, es[i])
    requires forall i | 0 <= i < k :: !StaleAt(N, t, d, s, h, es, i)
    ensures Inv(t, d, RunTo(N, s, es, k), PastTo(N, t, s, h, es, k))
  {
    if k > 0 {
      CleanEventsKeep(N, t, d, s, h, es, k - 1);
      assert !StaleAt(N, t, d, s, h, es, k - 1);
      StepKeeps(N, t, d, RunTo(N, s, es, k - 1), PastTo(N, t, s, h, es, k - 1), es[k - 1]);
    }
  }

  // ---- turns ----

  /** What happens in one go. */
  datatype Turn =
    | Alone(e: Event)                               // an event that is a turn of its own
    | Hears(w: Who, adopt: bool, how: How)          // onIndex, onIndexUpdate
    | Handles(w: Who, k: nat, ok: bool, how: How)   // handleCompletion
    | Reconciles(w: Who, how: How)                  // a reconcile that another path or the rescan brings about

  predicate OfItsOwn(e: Event) { !e.Deliver? && !e.Reconcile? && !e.Complete? && !e.Adopt? }

  /** reconcileWithPeer: the verdict, then tombstone GC. */
  function Settling(w: Who, how: How): (es: seq<Event>)
  {
    if how == GiveUp then [] else [Reconcile(w, how), Collect(w)]
  }

  function Parts(u: Turn): (es: seq<Event>)
  {
    match u
    case Alone(e) => if OfItsOwn(e) then [e] else []
    case Hears(w, adopt, how) => [Deliver(w)] + (if adopt then [Adopt(w)] else []) + Settling(w, how)
    case Handles(w, k, ok, how) => [Complete(w, k, ok)] + Settling(w, how)
    case Reconciles(w, how) => Settling(w, how)
  }

  function After(N: Naming, s: State, u: Turn): (r: State) { RunTo(N, s, Parts(u), |Parts(u)|) }

  function PastAfter(N: Naming, t: FileInfo, s: State, h: Past, u: Turn): (r: Past)
  {
    PastTo(N, t, s, h, Parts(u), |Parts(u)|)
  }

  function TurnsTo(N: Naming, s: State, us: seq<Turn>, k: nat): (r: State)
    requires k <= |us|
  {
    if k == 0 then s else After(N, TurnsTo(N, s, us, k - 1), us[k - 1])
  }

  function TurnsPast(N: Naming, t: FileInfo, s: State, us: seq<Turn>, k: nat): (h: Past)
    requires k <= |us|
  {
    if k == 0 then Past(false, false)
    else PastAfter(N, t, TurnsTo(N, s, us, k - 1), TurnsPast(N, t, s, us, k - 1), us[k - 1])
  }

  predicate HarmlessTurn(t: FileInfo, d: ShortID, u: Turn) { u.Alone? ==> Harmless(t, d, u.e) }
  predicate AllHarmless(t: FileInfo, d: ShortID, us: seq<Turn>) { forall i | 0 <= i < |us| :: HarmlessTurn(t, d, us[i]) }

  /** The turn handles the successful completion of a superseded task. */
  predicate StaleTurn(t: FileInfo, d: ShortID, s: State, h: Past, u: Turn)
  {
    u.Handles? && Stale(t, d, s, h, Complete(u.w, u.k, u.ok))
  }

  lemma {:induction false} OnlyTheCompletionIsStale(N: Naming, t: FileInfo, d: ShortID, s: State, h: Past, u: Turn)
    requires !StaleTurn(t, d, s, h, u)
    ensures forall i | 0 <= i < |Parts(u)| :: !StaleAt(N, t, d, s, h, Parts(u), i)
  {
    forall i | 0 <= i < |Parts(u)| ensures !StaleAt(N, t, d, s, h, Parts(u), i) {
      if i == 0 { assert RunTo(N, s, Parts(u), 0) == s; }
    }
  }

  lemma {:induction false} TurnKeeps(N: Naming, t: FileInfo, d: ShortID, s: State, h: Past, u: Turn)
    requires Inv(t, d, s, h) && HarmlessTurn(t, d, u) && !StaleTurn(t, d, s, h, u)
    ensures Inv(t, d, After(N, s, u), PastAfter(N, t, s, h, u))
  {
    OnlyTheCompletionIsStale(N, t, d, s, h, u);
    CleanEventsKeep(N, t, d, s, h, Parts(u), |Parts(u)|);
  }

  // ---- what every turn keeps, whatever completes ----

  predicate KnownMsgs(t: FileInfo, d: ShortID, q: seq<Msg>) { forall i | 0 <= i < |q| :: KnownOpt(t, d, LeafIn(q[i])) }

  predicate KnownSide(t: FileInfo, d: ShortID, x: Side)
  {
    KnownOpt(t, d, x.rec) && KnownOpt(t, d, x.index) && AllKnown(t, d, x.pending)
  }

  /** Every leaf anywhere is the tombstone or a superseded version. */
  predicate Family(t: FileInfo, d: ShortID, s: State)
  {
    && Sane(t) && t.deleted && KnownSide(t, d, s.a) && KnownSide(t, d, s.b)
    && KnownMsgs(t, d, s.toA) && KnownMsgs(t, d, s.toB)
  }

  /** The deletion stands: A's record is the tombstone or empty, and so is B's once B has recorded the tombstone. */
  predicate Stands(t: FileInfo, d: ShortID, s: State, h: Past)
  {
    !OldOpt(t, d, s.a.rec) && (h.buried ==> !OldOpt(t, d, s.b.rec))
  }

  lemma {:induction false} PutKnown(t: FileInfo, d: ShortID, s: State, w: Who, x: Side)
    requires Family(t, d, s) && KnownSide(t, d, x)
    ensures Family(t, d, Put(s, w, x))
  {
  }

  lemma {:induction false} SendKnown(t: FileInfo, d: ShortID, s: State, w: Who, m: Msg)
    requires Family(t, d, s) && KnownOpt(t, d, LeafIn(m))
    ensures Family(t, d, Send(s, w, m))
  {
  }

  lemma {:induction false} EnqueueKnown(t: FileInfo, d: ShortID, s: State, w: Who, task: Task)
    requires Family(t, d, s) && Known(t, d, task.leaf)
    ensures Family(t, d, Enqueue(s, w, task))
  {
    var x := SideOf(s, w);
    PutKnown(t, d, s, w, x.(inflight := true, pending := x.pending + [task]));
  }

  lemma {:induction false} ApplyKnown(t: FileInfo, d: ShortID, s: State, w: Who, f: FileInfo)
    requires Family(t, d, s) && Known(t, d, f)
    ensures Family(t, d, ApplyTomb(s, w, f))
  {
    var mid := Put(s, w, SideOf(s, w).(rec := Some(f)));
    PutKnown(t, d, s, w, SideOf(s, w).(rec := Some(f)));
    SendKnown(t, d, mid, w, Delta(f));
  }

  lemma {:induction false} ReconcileFamily(N: Naming, t: FileInfo, d: ShortID, s: State, w: Who, how: How)
    requires Family(t, d, s)
    ensures Family(t, d, Execute(N, s, w, how))
  {
    var x := SideOf(s, w);
    Verdicts(N, t, d, x.rec, x.index);
    var p := Decide(N, x.rec, x.index);
    if p != NoOp {
      EnqueueKnown(t, d, s, w, Fetch(LeafOf(p)));
      EnqueueKnown(t, d, s, w, Bury(LeafOf(p)));
      ApplyKnown(t, d, s, w, LeafOf(p));
    }
  }

  lemma {:induction false} CompleteFamily(N: Naming, t: FileInfo, d: ShortID, s: State, w: Who, k: nat, ok: bool)
    requires Family(t, d, s)
    ensures Family(t, d, Step(N, s, Complete(w, k, ok)))
  {
    var x := SideOf(s, w);
    if k < |x.pending| {
      var off := x.(pending := Without1(x.pending, k), inflight := false);
      PendingWithout(t, d, x.pending, k);
      PutKnown(t, d, s, w, off);
      var f := x.pending[k].leaf;
      PutKnown(t, d, Put(s, w, off), w, off.(rec := Some(f)));
      SendKnown(t, d, Put(Put(s, w, off), w, off.(rec := Some(f))), w, Delta(f));
      ApplyKnown(t, d, Put(s, w, off), w, f);
    }
  }

  lemma {:induction false} AdoptFamily(N: Naming, t: FileInfo, d: ShortID, s: State, w: Who)
    requires Family(t, d, s)
    ensures Family(t, d, Step(N, s, Adopt(w)))
  {
    var x := SideOf(s, w);
    if x.rec.Some? && !x.rec.value.deleted && x.index.Some? && !x.index.value.deleted {
      var f := x.rec.value.(version := x.index.value.version);
      assert Old(t, d, f);
      PutKnown(t, d, s, w, x.(rec := Some(f)));
      SendKnown(t, d, Put(s, w, x.(rec := Some(f))), w, Delta(f));
    }
  }

  lemma {:induction false} EventFamily(N: Naming, t: FileInfo, d: ShortID, s: State, e: Event)
    requires Family(t, d, s) && Harmless(t, d, e)
    ensures Family(t, d, Step(N, s, e))
  {
    match e
    case Reconcile(w, how) => ReconcileFamily(N, t, d, s, w, how);
    case Complete(w, k, ok) => CompleteFamily(N, t, d, s, w, k, ok);
    case Adopt(w) => AdoptFamily(N, t, d, s, w);
    case Attach(w, hello) =>
      var x := SideOf(s, w).(attached := true, joined := true, index := None, inflight := false);
      PutKnown(t, d, s, w, x);
      SendKnown(t, d, Put(s, w, x), w, Full(x.rec));
    case Drop(w, k) => if k < |SideOf(s, w).pending| { PendingWithout(t, d, SideOf(s, w).pending, k); }
    case _ =>
  }

  lemma {:induction false} StandingVerdict(N: Naming, t: FileInfo, d: ShortID, s: State, how: How, v: Who, w: Who)
    requires Family(t, d, s) && !OldOpt(t, d, SideOf(s, w).rec)
    ensures !OldOpt(t, d, SideOf(Execute(N, s, v, how), w).rec)
  {
    var x := SideOf(s, v);
    Verdicts(N, t, d, x.rec, x.index);
  }

  lemma {:induction false} StandingCompletion(N: Naming, t: FileInfo, d: ShortID, s: State, v: Who, k: nat, ok: bool, w: Who)
    requires !OldOpt(t, d, SideOf(s, w).rec)
    requires ok && v == w && k < |SideOf(s, w).pending| ==> !Old(t, d, SideOf(s, w).pending[k].leaf)
    ensures !OldOpt(t, d, SideOf(Step(N, s, Complete(v, k, ok)), w).rec)
  {
  }

  /** A side whose record is the tombstone or empty records nothing superseded by any other event. */
  lemma {:induction false} StandingSide(N: Naming, t: FileInfo, d: ShortID, s: State, e: Event, w: Who)
    requires Family(t, d, s) && !OldOpt(t, d, SideOf(s, w).rec)
    requires e.Complete? && e.ok && e.w == w && e.k < |SideOf(s, w).pending| ==> !Old(t, d, SideOf(s, w).pending[e.k].leaf)
    ensures !OldOpt(t, d, SideOf(Step(N, s, e), w).rec)
  {
    match e
    case Reconcile(v, how) => StandingVerdict(N, t, d, s, how, v, w);
    case Complete(v, k, ok) => StandingCompletion(N, t, d, s, v, k, ok, w);
    case _ =>
  }

  lemma {:induction false} EventStands(N: Naming, t: FileInfo, d: ShortID, s: State, h: Past, e: Event)
    requires Family(t, d, s) && Stands(t, d, s, h) && !Stale(t, d, s, h, e)
    ensures var s' := Step(N, s, e); Stands(t, d, s', Remember(t, h, s'))
  {
    StandingSide(N, t, d, s, e, A);
    if h.buried { StandingSide(N, t, d, s, e, B); }
    var g := Step(N, s, e).b.rec;
    if OldOpt(t, d, g) { OldNotTomb(t, d, g.value); }
  }

  lemma {:induction false} CleanEventsStand(N: Naming, t: FileInfo, d: ShortID, s: State, h: Past, es: seq<Event>, k: nat)
    requires Family(t, d, s) && Stands(t, d, s, h) && k <= |es| && forall i | 0 <= i < |es| :: Harmless(t, d, es[i])
    requires forall i | 0 <= i < k :: !StaleAt(N, t, d, s, h, es, i)
    ensures Family(t, d, RunTo(N, s, es, k)) && Stands(t, d, RunTo(N, s, es, k), PastTo(N, t, s, h, es, k))
  {
    if k > 0 {
      CleanEventsStand(N, t, d, s, h, es, k - 1);
      assert !StaleAt(N, t, d, s, h, es, k - 1);
      EventStands(N, t, d, RunTo(N, s, es, k - 1), PastTo(N, t, s, h, es, k - 1), es[k - 1]);
      EventFamily(N, t, d, RunTo(N, s, es, k - 1), es[k - 1]);
    }
  }

  lemma {:induction false} EventsFamily(N: Naming, t: FileInfo, d: ShortID, s: State, es: seq<Event>, k: nat)
    requires Family(t, d, s) && k <= |es| && forall i | 0 <= i < |es| :: Harmless(t, d, es[i])
    ensures Family(t, d, RunTo(N, s, es, k))
  {
    if k > 0 {
      EventsFamily(N, t, d, s, es, k - 1);
      EventFamily(N, t, d, RunTo(N, s, es, k - 1), es[k - 1]);
    }
  }

  // ---- the reconcile that follows a completion ----

  predicate Buries(p: Plan) { p != NoOp && LeafOf(p).deleted }

  /** The record after the verdict, with the path off flight. */
  function ExecRec(N: Naming, rec: Option<FileInfo>, index: Option<FileInfo>, how: How): (r: Option<FileInfo>)
  {
    var p := Decide(N, rec, index);
    if Buries(p) && (how == Now || (how == Defer && p.Install? && rec.Some? && rec.value.deleted)) then Some(LeafOf(p)) else rec
  }

  function CollectRec(rec: Option<FileInfo>, index: Option<FileInfo>): (r: Option<FileInfo>)
  {
    if rec.Some? && rec.value.deleted && Acknowledges(index, rec.value) then None else rec
  }

  /** The reconcile clears f from the record again: the peer shows a deletion, and either f is a deletion that it
      acknowledges, or it beats f and is applied now. */
  predicate Cleared(N: Naming, f: FileInfo, index: Option<FileInfo>, how: How)
  {
    && index.Some? && index.value.deleted && how != GiveUp
    && (if f.deleted then Acknowledges(index, f) else how == Now && Buries(Decide(N, Some(f), index)))
  }

  lemma {:induction false} LiveOverLive(N: Naming, f: FileInfo, g: FileInfo, how: How)
    requires Sane(f) && Sane(g) && !f.deleted && !g.deleted
    ensures CollectRec(ExecRec(N, Some(f), Some(g), how), Some(g)) == Some(f)
  {
  }

  /** A deletion that beats live f has g's version, which the peer acknowledges. */
  lemma {:induction false} LiveOverDead(N: Naming, f: FileInfo, g: FileInfo)
    requires Sane(f) && Sane(g) && !f.deleted && g.deleted
    ensures var p := Decide(N, Some(f), Some(g)); Buries(p) ==> Acknowledges(Some(g), LeafOf(p))
  {
    MergedByOrder(f.version, g.version);
    LeqReflexive(g.version);
  }

  lemma {:induction false} LiveSettles(N: Naming, f: FileInfo, g: FileInfo, how: How)
    requires Sane(f) && Sane(g) && !f.deleted && how != GiveUp
    ensures var r := CollectRec(ExecRec(N, Some(f), Some(g), how), Some(g));
            r == if Cleared(N, f, Some(g), how) then None else Some(f)
  {
    if g.deleted { LiveOverDead(N, f, g); } else { LiveOverLive(N, f, g, how); }
  }

  lemma {:induction false} DeadTwins(t: FileInfo, d: ShortID, f: FileInfo, g: FileInfo)
    requires Old(t, d, f) && Known(t, d, g) && Sane(t) && Order(f.version, g.version) == Concurrent
    ensures Order(g.version, Merged(f.version, g.version)) == DominatedBy
    ensures Old(t, d, f.(version := Merged(f.version, g.version)))
  {
    var m := Merged(f.version, g.version);
    MergedIsLub(f.version, g.version);
    if Leq(m, g.version) { LeqTransitive(f.version, m, g.version); }
    MergedIsOld(t, d, f, g);
  }

  lemma {:induction false} DeadOverLive(N: Naming, f: FileInfo, g: FileInfo, how: How)
    requires Sane(f) && Sane(g) && f.deleted && !g.deleted
    ensures CollectRec(ExecRec(N, Some(f), Some(g), how), Some(g)) == Some(f)
  {
    MergedByOrder(f.version, g.version);
  }

  lemma {:induction false} DeadOverDead(N: Naming, f: FileInfo, g: FileInfo)
    requires Sane(f) && Sane(g) && f.deleted && g.deleted
    ensures var p, m := Decide(N, Some(f), Some(g)), Merged(f.version, g.version);
            match Order(f.version, g.version)
            case Equal => p == NoOp
            case Dominates => p == NoOp
            case DominatedBy => p == Install(g)
            case Concurrent => p == Install(f.(version := m))
    ensures Acknowledges(Some(g), f) <==> Order(f.version, g.version) in {Equal, DominatedBy}
    ensures Acknowledges(Some(g), g)
  {
    OrderPointwise(f.version, g.version);
    OrderPointwise(g.version, f.version);
    MergedByOrder(f.version, g.version);
    LeqReflexive(g.version);
  }

  lemma {:induction false} DeadSettles(N: Naming, t: FileInfo, d: ShortID, f: FileInfo, g: FileInfo, how: How)
    requires Old(t, d, f) && f.deleted && Known(t, d, g) && Sane(t) && how != GiveUp
    ensures var r := CollectRec(ExecRec(N, Some(f), Some(g), how), Some(g));
            if Cleared(N, f, Some(g), how) then r == None else OldOpt(t, d, r)
  {
    if g.deleted {
      DeadOverDead(N, f, g);
      if Order(f.version, g.version) == Concurrent { DeadTwins(t, d, f, g); }
    } else {
      DeadOverLive(N, f, g, how);
    }
  }

  lemma {:induction false} OldSettles(N: Naming, t: FileInfo, d: ShortID, f: FileInfo, index: Option<FileInfo>, how: How)
    requires Old(t, d, f) && KnownOpt(t, d, index) && Sane(t) && how != GiveUp
    ensures var r := CollectRec(ExecRec(N, Some(f), index, how), index);
            if Cleared(N, f, index, how) then r == None else OldOpt(t, d, r)
  {
    if index.Some? {
      if f.deleted { DeadSettles(N, t, d, f, index.value, how); } else { LiveSettles(N, f, index.value, how); }
    }
  }

  /** What a completion leaves on w's side before the reconcile. */
  lemma {:induction false} CompletionRecords(N: Naming, s: State, w: Who, k: nat)
    requires k < |SideOf(s, w).pending|
    ensures var x, r := SideOf(s, w), Step(N, s, Complete(w, k, true));
            && SideOf(r, w).rec == Some(x.pending[k].leaf) && !SideOf(r, w).inflight
            && SideOf(r, w).attached == x.attached && SideOf(r, w).index == x.index
            && (if w == A then r.b == s.b else r.a == s.a)
  {
  }

  lemma {:induction false} ExecutedRecord(N: Naming, s: State, w: Who, how: How)
    requires SideOf(s, w).attached && !SideOf(s, w).inflight && how != GiveUp
    ensures var x, r := SideOf(s, w), Step(N, s, Reconcile(w, how));
            && SideOf(r, w).rec == ExecRec(N, x.rec, x.index, how)
            && SideOf(r, w).attached && SideOf(r, w).index == x.index
            && (if w == A then r.b == s.b else r.a == s.a)
  {
  }

  lemma {:induction false} CollectedRecord(N: Naming, s: State, w: Who)
    requires SideOf(s, w).attached
    ensures var x, r := SideOf(s, w), Step(N, s, Collect(w));
            SideOf(r, w).rec == CollectRec(x.rec, x.index) && (if w == A then r.b == s.b else r.a == s.a)
  {
  }

  lemma {:induction false} DetachedSettles(N: Naming, s: State, w: Who, how: How)
    requires !SideOf(s, w).attached
    ensures RunTo(N, s, Settling(w, how), |Settling(w, how)|) == s
  {
    if how != GiveUp { assert RunTo(N, s, Settling(w, how), 1) == s; }
  }

  lemma {:induction false} SettledRecord(N: Naming, s: State, w: Who, how: How)
    requires SideOf(s, w).attached && !SideOf(s, w).inflight && how != GiveUp
    ensures var x, r := SideOf(s, w), RunTo(N, s, Settling(w, how), 2);
            && SideOf(r, w).rec == CollectRec(ExecRec(N, x.rec, x.index, how), x.index)
            && (if w == A then r.b == s.b else r.a == s.a)
  {
    var mid := RunTo(N, s, Settling(w, how), 1);
    assert mid == Step(N, RunTo(N, s, Settling(w, how), 0), Reconcile(w, how));
    ExecutedRecord(N, s, w, how);
    CollectedRecord(N, mid, w);
  }

  lemma {:induction false} RunOfConcat(N: Naming, s: State, es: seq<Event>, fs: seq<Event>, k: nat)
    requires k <= |fs|
    ensures RunTo(N, s, es + fs, |es| + k) == RunTo(N, RunTo(N, s, es, |es|), fs, k)
  {
    if k == 0 { RunOfPrefix(N, s, es, fs, |es|); } else { RunOfConcat(N, s, es, fs, k - 1); }
  }

  lemma {:induction false} RunOfPrefix(N: Naming, s: State, es: seq<Event>, fs: seq<Event>, k: nat)
    requires k <= |es|
    ensures RunTo(N, s, es + fs, k) == RunTo(N, s, es, k)
  {
    if k > 0 { RunOfPrefix(N, s, es, fs, k - 1); }
  }

  /** handleCompletion: the completion, then the reconcile. */
  lemma {:induction false} HandlesIs(N: Naming, s: State, w: Who, k: nat, ok: bool, how: How)
    ensures After(N, s, Handles(w, k, ok, how))
            == RunTo(N, Step(N, s, Complete(w, k, ok)), Settling(w, how), |Settling(w, how)|)
  {
    RunOfConcat(N, s, [Complete(w, k, ok)], Settling(w, how), |Settling(w, how)|);
    assert RunTo(N, s, [Complete(w, k, ok)], 1) == Step(N, RunTo(N, s, [Complete(w, k, ok)], 0), Complete(w, k, ok));
  }

  /** The turn undoes its own completion. */
  predicate Undone(N: Naming, s: State, u: Turn)
    requires u.Handles? && u.k < |SideOf(s, u.w).pending|
  {
    var x := SideOf(s, u.w);
    x.attached && Cleared(N, x.pending[u.k].leaf, x.index, u.how)
  }

  /** The turn brings a superseded version back: it handles the successful completion of its task, at A, or at B after
      B buried the path, and does not undo it: no connection is up, or the peer's deletion is not in view, or the
      reconcile does not apply it now. */
  predicate Revives(N: Naming, t: FileInfo, d: ShortID, s: State, h: Past, u: Turn)
  {
    StaleTurn(t, d, s, h, u) && !Undone(N, s, u)
  }

  /** A stale completion leaves the superseded version on record, or the record empty when the turn undoes it. */
  lemma {:induction false} StaleLeaves(N: Naming, t: FileInfo, d: ShortID, s: State, h: Past, u: Turn)
    requires Family(t, d, s) && StaleTurn(t, d, s, h, u)
    ensures var r := After(N, s, u);
            && (if Undone(N, s, u) then SideOf(r, u.w).rec == None else OldOpt(t, d, SideOf(r, u.w).rec))
            && (if u.w == A then r.b == s.b else r.a == s.a)
  {
    HandlesIs(N, s, u.w, u.k, u.ok, u.how);
    CompletionRecords(N, s, u.w, u.k);
    var mid, x := Step(N, s, Complete(u.w, u.k, true)), SideOf(s, u.w);
    if !x.attached {
      DetachedSettles(N, mid, u.w, u.how);
    } else if u.how != GiveUp {
      SettledRecord(N, mid, u.w, u.how);
      OldSettles(N, t, d, x.pending[u.k].leaf, x.index, u.how);
    }
  }

  lemma {:induction false} PastGrows(N: Naming, t: FileInfo, s: State, h: Past, es: seq<Event>, k: nat)
    requires k <= |es|
    ensures h.buried ==> PastTo(N, t, s, h, es, k).buried
  {
    if k > 0 { PastGrows(N, t, s, h, es, k - 1); }
  }

  lemma {:induction false} PartsAreHarmless(t: FileInfo, d: ShortID, u: Turn)
    requires HarmlessTurn(t, d, u)
    ensures forall i | 0 <= i < |Parts(u)| :: Harmless(t, d, Parts(u)[i])
  {
  }

  lemma {:induction false} TurnFamily(N: Naming, t: FileInfo, d: ShortID, s: State, u: Turn)
    requires Family(t, d, s) && HarmlessTurn(t, d, u)
    ensures Family(t, d, After(N, s, u))
  {
    PartsAreHarmless(t, d, u);
    EventsFamily(N, t, d, s, Parts(u), |Parts(u)|);
  }

  // ---- whole runs ----

  /** After k turns the deletion no longer stands: a superseded version is on record at A, or at B although B had
      buried the path. */
  predicate Regressed(N: Naming, t: FileInfo, d: ShortID, s: State, us: seq<Turn>, k: nat)
    requires k <= |us|
  {
    !Stands(t, d, TurnsTo(N, s, us, k), TurnsPast(N, t, s, us, k))
  }

  predicate RevivesAt(N: Naming, t: FileInfo, d: ShortID, s: State, us: seq<Turn>, k: nat)
    requires k < |us|
  {
    Revives(N, t, d, TurnsTo(N, s, us, k), TurnsPast(N, t, s, us, k), us[k])
  }

  lemma {:induction false} EventAtA(N: Naming, s: State, e: Event)
    requires (e.Complete? || e.Reconcile? || e.Collect?) && e.w == A
    ensures Step(N, s, e).b == s.b
  {
  }

  lemma {:induction false} EventsAtA(N: Naming, t: FileInfo, s: State, h: Past, es: seq<Event>, k: nat)
    requires k <= |es| && forall i | 0 <= i < |es| :: (es[i].Complete? || es[i].Reconcile? || es[i].Collect?) && es[i].w == A
    ensures RunTo(N, s, es, k).b == s.b
    ensures PastTo(N, t, s, h, es, k).buried ==> h.buried || TombOpt(t, s.b.rec)
  {
    if k > 0 {
      EventsAtA(N, t, s, h, es, k - 1);
      EventAtA(N, RunTo(N, s, es, k - 1), es[k - 1]);
    }
  }

  /** A turn keeps the deletion standing exactly when it does not revive a superseded version. */
  lemma {:induction false} TurnStands(N: Naming, t: FileInfo, d: ShortID, s: State, h: Past, u: Turn)
    requires Family(t, d, s) && Stands(t, d, s, h) && HarmlessTurn(t, d, u)
    ensures Stands(t, d, After(N, s, u), PastAfter(N, t, s, h, u)) <==> !Revives(N, t, d, s, h, u)
  {
    if StaleTurn(t, d, s, h, u) {
      StaleLeaves(N, t, d, s, h, u);
      PastGrows(N, t, s, h, Parts(u), |Parts(u)|);
      if u.w == A {
        EventsAtA(N, t, s, h, Parts(u), |Parts(u)|);
        if OldOpt(t, d, s.b.rec) { OldNotTomb(t, d, s.b.rec.value); }
      }
    } else {
      PartsAreHarmless(t, d, u);
      OnlyTheCompletionIsStale(N, t, d, s, h, u);
      CleanEventsStand(N, t, d, s, h, Parts(u), |Parts(u)|);
    }
  }

  /** A has just tombstoned the path, off flight, knowing every version of it that exists anywhere. */
  predicate Start(t: FileInfo, d: ShortID, s: State) { Inv(t, d, s, Past(false, false)) && s.a.rec == Some(t) }

  lemma {:induction false} StartStands(t: FileInfo, d: ShortID, s: State)
    requires Start(t, d, s)
    ensures Family(t, d, s) && Stands(t, d, s, Past(false, false))
  {
    if Old(t, d, t) { OldNotTomb(t, d, t); }
  }

  lemma {:induction false} TurnsFamily(N: Naming, t: FileInfo, d: ShortID, s: State, us: seq<Turn>, k: nat)
    requires Family(t, d, s) && AllHarmless(t, d, us) && k <= |us|
    ensures Family(t, d, TurnsTo(N, s, us, k))
  {
    if k > 0 {
      TurnsFamily(N, t, d, s, us, k - 1);
      TurnFamily(N, t, d, TurnsTo(N, s, us, k - 1), us[k - 1]);
    }
  }

  lemma {:induction false} CleanTurnsStand(N: Naming, t: FileInfo, d: ShortID, s: State, us: seq<Turn>, k: nat)
    requires Start(t, d, s) && AllHarmless(t, d, us) && k <= |us| && forall i | 0 <= i < k :: !RevivesAt(N, t, d, s, us, i)
    ensures !Regressed(N, t, d, s, us, k)
  {
    StartStands(t, d, s);
    if k > 0 {
      CleanTurnsStand(N, t, d, s, us, k - 1);
      TurnsFamily(N, t, d, s, us, k - 1);
      assert !RevivesAt(N, t, d, s, us, k - 1);
      TurnStands(N, t, d, TurnsTo(N, s, us, k - 1), TurnsPast(N, t, s, us, k - 1), us[k - 1]);
    }
  }

  lemma {:induction false} RevivalRegresses(N: Naming, t: FileInfo, d: ShortID, s: State, us: seq<Turn>, k: nat)
    requires Start(t, d, s) && AllHarmless(t, d, us) && k < |us| && RevivesAt(N, t, d, s, us, k)
    ensures Regressed(N, t, d, s, us, k + 1)
  {
    StartStands(t, d, s);
    TurnsFamily(N, t, d, s, us, k);
    var q, h := TurnsTo(N, s, us, k), TurnsPast(N, t, s, us, k);
    StaleLeaves(N, t, d, q, h, us[k]);
    PastGrows(N, t, q, h, Parts(us[k]), |Parts(us[k])|);
  }

  /** A run brings a superseded version back exactly when some turn revives one: it handles the successful completion
      of a superseded task, at A, or at B after B has buried the path, and does not itself undo it. Delivery,
      reconciling, reseeding, connecting, disconnecting and garbage collection, anywhere and in any order, never do. */
  lemma {:induction false} NoResurrection(N: Naming, t: FileInfo, d: ShortID, s: State, us: seq<Turn>)
    requires Start(t, d, s) && AllHarmless(t, d, us)
    ensures (exists k | 0 <= k <= |us| :: Regressed(N, t, d, s, us, k))
            <==> (exists k | 0 <= k < |us| :: RevivesAt(N, t, d, s, us, k))
  {
    if exists k | 0 <= k < |us| :: RevivesAt(N, t, d, s, us, k) {
      var k :| 0 <= k < |us| && RevivesAt(N, t, d, s, us, k);
      RevivalRegresses(N, t, d, s, us, k);
    } else {
      forall k | 0 <= k <= |us| ensures !Regressed(N, t, d, s, us, k) { CleanTurnsStand(N, t, d, s, us, k); }
    }
  }

  /** In a run without such a turn the path is never live on A again, nor on B once B has applied the deletion. */
  lemma {:induction false} NeverLiveAgain(N: Naming, t: FileInfo, d: ShortID, s: State, us: seq<Turn>, k: nat)
    requires Start(t, d, s) && k <= |us| && AllHarmless(t, d, us)
    requires forall i | 0 <= i < |us| :: !RevivesAt(N, t, d, s, us, i)
    ensures LiveView(TurnsTo(N, s, us, k).a.rec) == None
    ensures TurnsPast(N, t, s, us, k).buried ==> LiveView(TurnsTo(N, s, us, k).b.rec) == None
  {
    CleanTurnsStand(N, t, d, s, us, k);
    StartStands(t, d, s);
    TurnsFamily(N, t, d, s, us, k);
  }

  // ---- the condition on a state: what may still be pending when both have buried the path ----

  predicate NoneOld(t: FileInfo, d: ShortID, q: seq<Task>) { forall i | 0 <= i < |q| :: !Old(t, d, q[i].leaf) }

  /** No superseded task is pending on either peer. */
  predicate Drained(t: FileInfo, d: ShortID, s: State) { NoneOld(t, d, s.a.pending) && NoneOld(t, d, s.b.pending) }

  predicate NoPreserve(us: seq<Turn>) { forall i | 0 <= i < |us| :: us[i].Alone? ==> !us[i].e.Preserve? }

  /** No superseded version is on record, on either peer, after any turn. */
  predicate StaysBuried(N: Naming, t: FileInfo, d: ShortID, s: State, us: seq<Turn>)
  {
    forall k | 0 <= k <= |us| :: !OldOpt(t, d, TurnsTo(N, s, us, k).a.rec) && !OldOpt(t, d, TurnsTo(N, s, us, k).b.rec)
  }

  predicate BuriedAndDrained(t: FileInfo, d: ShortID, s: State) { Inv(t, d, s, Past(true, true)) && Drained(t, d, s) }

  lemma {:induction false} WithoutDrained(t: FileInfo, d: ShortID, q: seq<Task>, k: nat)
    requires k < |q| && NoneOld(t, d, q)
    ensures NoneOld(t, d, Without1(q, k))
  {
    forall i | 0 <= i < |q| - 1 ensures Without1(q, k)[i] == if i < k then q[i] else q[i + 1] {}
  }

  lemma {:induction false} CompletedDrained(N: Naming, t: FileInfo, d: ShortID, s: State, w: Who, k: nat, ok: bool)
    requires Drained(t, d, s)
    ensures Drained(t, d, Step(N, s, Complete(w, k, ok)))
  {
    if k < |SideOf(s, w).pending| { WithoutDrained(t, d, SideOf(s, w).pending, k); }
  }

  lemma {:induction false} DroppedDrained(N: Naming, t: FileInfo, d: ShortID, s: State, w: Who, k: nat)
    requires Drained(t, d, s)
    ensures Drained(t, d, Step(N, s, Drop(w, k)))
  {
    if k < |SideOf(s, w).pending| { WithoutDrained(t, d, SideOf(s, w).pending, k); }
  }

  lemma {:induction false} ReconcileDrained(N: Naming, t: FileInfo, d: ShortID, s: State, w: Who, how: How)
    requires BuriedAndDrained(t, d, s)
    ensures Step(N, s, Reconcile(w, how)) == s
  {
    VerdictsUnderInv(N, t, d, s, Past(true, true));
  }

  /** Once the path is buried nothing superseded is queued any more. */
  lemma {:induction false} StepDrained(N: Naming, t: FileInfo, d: ShortID, s: State, e: Event)
    requires BuriedAndDrained(t, d, s) && !e.Preserve?
    ensures BuriedAndDrained(t, d, Step(N, s, e))
  {
    StepKeeps(N, t, d, s, Past(true, true), e);
    match e
    case Reconcile(w, how) => ReconcileDrained(N, t, d, s, w, how);
    case Complete(w, k, ok) => CompletedDrained(N, t, d, s, w, k, ok);
    case Drop(w, k) => DroppedDrained(N, t, d, s, w, k);
    case _ =>
  }

  lemma {:induction false} EventsDrained(N: Naming, t: FileInfo, d: ShortID, s: State, es: seq<Event>, k: nat)
    requires BuriedAndDrained(t, d, s) && k <= |es| && forall i | 0 <= i < |es| :: !es[i].Preserve?
    ensures BuriedAndDrained(t, d, RunTo(N, s, es, k))
  {
    if k > 0 {
      EventsDrained(N, t, d, s, es, k - 1);
      StepDrained(N, t, d, RunTo(N, s, es, k - 1), es[k - 1]);
    }
  }

  lemma {:induction false} TurnDrained(N: Naming, t: FileInfo, d: ShortID, s: State, u: Turn)
    requires BuriedAndDrained(t, d, s) && (u.Alone? ==> !u.e.Preserve?)
    ensures BuriedAndDrained(t, d, After(N, s, u))
  {
    forall i | 0 <= i < |Parts(u)| ensures !Parts(u)[i].Preserve? {}
    EventsDrained(N, t, d, s, Parts(u), |Parts(u)|);
  }

  lemma {:induction false} TurnsDrained(N: Naming, t: FileInfo, d: ShortID, s: State, us: seq<Turn>, k: nat)
    requires BuriedAndDrained(t, d, s) && NoPreserve(us) && k <= |us|
    ensures BuriedAndDrained(t, d, TurnsTo(N, s, us, k))
  {
    if k > 0 {
      TurnsDrained(N, t, d, s, us, k - 1);
      TurnDrained(N, t, d, TurnsTo(N, s, us, k - 1), us[k - 1]);
    }
  }

  lemma {:induction false} DrainedStays(N: Naming, t: FileInfo, d: ShortID, s: State, us: seq<Turn>)
    requires BuriedAndDrained(t, d, s) && NoPreserve(us)
    ensures StaysBuried(N, t, d, s, us)
  {
    forall k | 0 <= k <= |us|
      ensures !OldOpt(t, d, TurnsTo(N, s, us, k).a.rec) && !OldOpt(t, d, TurnsTo(N, s, us, k).b.rec)
    {
      TurnsDrained(N, t, d, s, us, k);
      var r := TurnsTo(N, s, us, k);
      if OldOpt(t, d, r.a.rec) { OldNotTomb(t, d, r.a.rec.value); }
    }
  }

  /** A pending superseded task has only to complete after the connection is gone. */
  lemma {:induction false} PendingReturns(N: Naming, t: FileInfo, d: ShortID, s: State, w: Who, k: nat)
    requires k < |SideOf(s, w).pending| && Old(t, d, SideOf(s, w).pending[k].leaf)
    ensures !StaysBuried(N, t, d, s, [Alone(Detach(w)), Handles(w, k, true, Now)])
  {
    var us := [Alone(Detach(w)), Handles(w, k, true, Now)];
    AloneIs(N, s, Detach(w));
    var off := Step(N, s, Detach(w));
    assert TurnsTo(N, s, us, 1) == After(N, TurnsTo(N, s, us, 0), us[0]);
    assert TurnsTo(N, s, us, 2) == After(N, off, us[1]);
    HandlesIs(N, off, w, k, true, Now);
    CompletionRecords(N, off, w, k);
    DetachedSettles(N, Step(N, off, Complete(w, k, true)), w, Now);
  }

  lemma {:induction false} AloneIs(N: Naming, s: State, e: Event)
    requires OfItsOwn(e)
    ensures After(N, s, Alone(e)) == Step(N, s, e)
  {
    assert RunTo(N, s, [e], 1) == Step(N, RunTo(N, s, [e], 0), e);
  }

  /** Once B has buried the path, every continuation keeps it buried on both peers exactly when no superseded task
      is pending on either: a condition on the state that can be checked there and then. */
  lemma {:induction false} BuriedForGood(N: Naming, t: FileInfo, d: ShortID, s: State)
    requires Inv(t, d, s, Past(true, true))
    ensures (forall us | NoPreserve(us) :: StaysBuried(N, t, d, s, us)) <==> Drained(t, d, s)
  {
    if Drained(t, d, s) {
      forall us | NoPreserve(us) ensures StaysBuried(N, t, d, s, us) { DrainedStays(N, t, d, s, us); }
    } else if !NoneOld(t, d, s.a.pending) {
      var k :| 0 <= k < |s.a.pending| && Old(t, d, s.a.pending[k].leaf);
      PendingReturns(N, t, d, s, A, k);
      assert NoPreserve([Alone(Detach(A)), Handles(A, k, true, Now)]);
    } else {
      var k :| 0 <= k < |s.b.pending| && Old(t, d, s.b.pending[k].leaf);
      PendingReturns(N, t, d, s, B, k);
      assert NoPreserve([Alone(Detach(B)), Handles(B, k, true, Now)]);
    }
  }

  // ---- the guard the engine does not have ----

  /** An engine that treats the completion of a task whose path is not marked in flight as a failure. It would refuse
      conflict copies too, whose paths are not marked, unless it marked them as enqueueRename does its new path. */
  function Checked(s: State, u: Turn): (r: Turn)
  {
    if u.Handles? && !SideOf(s, u.w).inflight then u.(ok := false) else u
  }

  function CheckedTo(N: Naming, s: State, us: seq<Turn>, k: nat): (r: State)
    requires k <= |us|
  {
    if k == 0 then s
    else
      var q := CheckedTo(N, s, us, k - 1);
      After(N, q, Checked(q, us[k - 1]))
  }

  function CheckedPast(N: Naming, t: FileInfo, s: State, us: seq<Turn>, k: nat): (h: Past)
    requires k <= |us|
  {
    if k == 0 then Past(false, false)
    else
      var q := CheckedTo(N, s, us, k - 1);
      PastAfter(N, t, q, CheckedPast(N, t, s, us, k - 1), Checked(q, us[k - 1]))
  }

  lemma {:induction false} MarkedIsNotStale(t: FileInfo, d: ShortID, s: State, h: Past, u: Turn)
    requires Inv(t, d, s, h) && u.Handles? && SideOf(s, u.w).inflight
    ensures !StaleTurn(t, d, s, h, u)
  {
  }

  lemma {:induction false} CheckedIsNotStale(t: FileInfo, d: ShortID, s: State, h: Past, u: Turn)
    requires Inv(t, d, s, h) && HarmlessTurn(t, d, u)
    ensures !StaleTurn(t, d, s, h, Checked(s, u)) && HarmlessTurn(t, d, Checked(s, u))
  {
    if u.Handles? && SideOf(s, u.w).inflight { MarkedIsNotStale(t, d, s, h, u); }
  }

  lemma {:induction false} CheckedTurnsKeep(N: Naming, t: FileInfo, d: ShortID, s: State, us: seq<Turn>, k: nat)
    requires Start(t, d, s) && k <= |us| && AllHarmless(t, d, us)
    ensures Inv(t, d, CheckedTo(N, s, us, k), CheckedPast(N, t, s, us, k))
  {
    if k > 0 {
      CheckedTurnsKeep(N, t, d, s, us, k - 1);
      var q, h := CheckedTo(N, s, us, k - 1), CheckedPast(N, t, s, us, k - 1);
      assert HarmlessTurn(t, d, us[k - 1]);
      CheckedIsNotStale(t, d, q, h, us[k - 1]);
      TurnKeeps(N, t, d, q, h, Checked(q, us[k - 1]));
    }
  }

  /** With that check no run brings the file back. */
  lemma {:induction false} CheckedNeverResurrects(N: Naming, t: FileInfo, d: ShortID, s: State, us: seq<Turn>, k: nat)
    requires Start(t, d, s) && k <= |us| && AllHarmless(t, d, us)
    ensures LiveView(CheckedTo(N, s, us, k).a.rec) == None
    ensures CheckedPast(N, t, s, us, k).buried ==> LiveView(CheckedTo(N, s, us, k).b.rec) == None
  {
    CheckedTurnsKeep(N, t, d, s, us, k);
  }

  // ---- deleting a file is a starting point ----

  /** Everything recorded, advertised, in a channel or pending is covered by f. */
  predicate Covered(f: FileInfo, g: Option<FileInfo>) { g.Some? ==> Sane(g.value) && Leq(g.value.version, f.version) }

  predicate CoveredTasks(f: FileInfo, q: seq<Task>) { forall i | 0 <= i < |q| :: Covered(f, Some(q[i].leaf)) }
  predicate CoveredMsgs(f: FileInfo, q: seq<Msg>) { forall i | 0 <= i < |q| :: Covered(f, LeafIn(q[i])) }

  predicate AllCovered(f: FileInfo, s: State)
  {
    && Covered(f, s.a.rec) && Covered(f, s.a.index) && Covered(f, s.b.rec) && Covered(f, s.b.index)
    && CoveredTasks(f, s.a.pending) && CoveredTasks(f, s.b.pending)
    && CoveredMsgs(f, s.toA) && CoveredMsgs(f, s.toB)
  }

  lemma {:induction false} CoveredIsOld(f: FileInfo, d: ShortID, g: FileInfo)
    requires Sane(f) && Covered(f, Some(g)) && At(f.version, d) < TWO64 - 1
    ensures Old(SetDeleted(f, d), d, g)
  {
    BumpDominates(f.version, d);
    LeqTransitive(g.version, f.version, Bumped(f.version, d));
    LeqAt(g.version, f.version, d);
  }

  lemma {:induction false} CoveredOption(f: FileInfo, d: ShortID, g: Option<FileInfo>)
    requires Sane(f) && Covered(f, g) && At(f.version, d) < TWO64 - 1
    ensures var t := SetDeleted(f, d); KnownOpt(t, d, g) && !TombOpt(t, g)
  {
    if g.Some? {
      CoveredIsOld(f, d, g.value);
      OldNotTomb(SetDeleted(f, d), d, g.value);
    }
  }

  lemma {:induction false} CoveredMsgsAreOld(f: FileInfo, d: ShortID, q: seq<Msg>)
    requires Sane(f) && CoveredMsgs(f, q) && At(f.version, d) < TWO64 - 1
    ensures var t := SetDeleted(f, d); Ordered(t, d, q) && NoTomb(t, q)
  {
    forall i | 0 <= i < |q|
      ensures KnownOpt(SetDeleted(f, d), d, LeafIn(q[i])) && !TombOpt(SetDeleted(f, d), LeafIn(q[i]))
    {
      CoveredOption(f, d, LeafIn(q[i]));
    }
  }

  lemma {:induction false} CoveredTasksAreOld(f: FileInfo, d: ShortID, q: seq<Task>)
    requires Sane(f) && CoveredTasks(f, q) && At(f.version, d) < TWO64 - 1
    ensures AllOld(SetDeleted(f, d), d, q) && AllKnown(SetDeleted(f, d), d, q)
  {
    forall i | 0 <= i < |q| ensures Old(SetDeleted(f, d), d, q[i].leaf) { CoveredIsOld(f, d, q[i].leaf); }
  }

  /** Deleting a live file whose version nothing in the system exceeds, off flight, is such a starting point. */
  lemma {:induction false} DeletionStarts(d: ShortID, s: State, f: FileInfo)
    requires s.a.rec == Some(f) && Sane(f) && !f.deleted && !s.a.inflight
    requires At(f.version, d) < TWO64 - 1 && AllCovered(f, s)
    ensures var t := SetDeleted(f, d); Start(t, d, Send(Put(s, A, s.a.(rec := Some(t))), A, Delta(t)))
  {
    var t := SetDeleted(f, d);
    var mid := Put(s, A, s.a.(rec := Some(t)));
    assert Inv(t, d, mid, Past(false, false)) by {
      BumpDominates(f.version, d);
      CoveredOption(f, d, s.a.index);
      CoveredOption(f, d, s.b.index);
      CoveredOption(f, d, s.b.rec);
      CoveredMsgsAreOld(f, d, s.toA);
      CoveredMsgsAreOld(f, d, s.toB);
      CoveredTasksAreOld(f, d, s.a.pending);
      CoveredTasksAreOld(f, d, s.b.pending);
    }
    SendFromA(t, d, mid, Past(false, false), Delta(t));
  }

  // ---- a run that does resurrect ----

  const ONE: Digest :=
    [1, 0, 0, 0, 0, 0, 0, 0, 0, 0, 0, 0, 0, 0, 0, 0, 0, 0, 0, 0, 0, 0, 0, 0, 0, 0, 0, 0, 0, 0, 0, 0]

  /** The n-th edit of one file by device 1. */
  function Edit(n: U64): FileInfo { FileInfo([0x61], ONE, 0, 0, 0, [Counter(1, n)], false, TypeFile) }

  /** The deletion that follows the second edit. */
  function Tomb(): FileInfo { SetDeleted(Edit(2), 1) }

  const LATE: seq<Task> := [Fetch(Edit(2))]

  /** B is fetching A's second edit when A deletes the file. */
  function Fetching(): (s: State)
  {
    State(Side(Some(Edit(2)), Some(Edit(1)), false, true, true, []),
          Side(Some(Edit(1)), Some(Edit(2)), true, true, true, LATE), [], [])
  }

  function Deleted(): (s: State)
  {
    var s := Fetching();
    Send(Put(s, A, s.a.(rec := Some(Tomb()))), A, Delta(Tomb()))
  }

  /** The connection is replaced while B's puller, past its last block, has still to rename the file into place. Both
      peers bury the path and collect the tombstone. Then this connection goes down too, and only now the rename
      happens and its completion is handled: no peer is connected, so nothing is reconciled. The next connection
      carries the file back to A. */
  const RETURN: seq<Turn> :=
    [Alone(Detach(B)), Alone(Detach(A)), Alone(Link), Alone(Attach(A, true)), Alone(Attach(B, true)),
     Hears(B, false, Now), Hears(A, false, Now), Hears(A, false, Now),
     Alone(Detach(A)), Alone(Detach(B)), Handles(B, 0, true, Now),
     Alone(Link), Alone(Attach(A, true)), Alone(Attach(B, true)),
     Hears(B, false, Now), Hears(A, false, Now), Handles(A, 0, true, Now)]

  lemma {:induction false} EditsAreOld(n: U64)
    requires 0 < n <= 2
    ensures Old(Tomb(), 1, Edit(n)) && IsTomb(Tomb(), Tomb())
  {
    assert Bumped([Counter(1, 2)], 1) == [Counter(1, 3)];
    assert At([Counter(1, 3)], 1) == 3;
    assert At([Counter(1, n)], 1) == n;
  }

  lemma {:induction false} Turn1(N: Naming, s: State, us: seq<Turn>, k: nat)
    requires k < |us|
    ensures TurnsTo(N, s, us, k + 1) == After(N, TurnsTo(N, s, us, k), us[k])
    ensures us[k].Alone? && OfItsOwn(us[k].e) ==> TurnsTo(N, s, us, k + 1) == Step(N, TurnsTo(N, s, us, k), us[k].e)
  {
    if us[k].Alone? && OfItsOwn(us[k].e) { AloneIs(N, TurnsTo(N, s, us, k), us[k].e); }
  }

  lemma {:induction false} HearsIs(N: Naming, s: State, w: Who)
    ensures After(N, s, Hears(w, false, Now)) == Step(N, Step(N, Step(N, s, Deliver(w)), Reconcile(w, Now)), Collect(w))
  {
    var es := [Deliver(w), Reconcile(w, Now), Collect(w)];
    assert Parts(Hears(w, false, Now)) == es;
    assert RunTo(N, s, es, 1) == Step(N, RunTo(N, s, es, 0), es[0]);
    assert RunTo(N, s, es, 2) == Step(N, RunTo(N, s, es, 1), es[1]);
  }

  function Quiet(rec: Option<FileInfo>, index: Option<FileInfo>, up: bool, pending: seq<Task>): (x: Side)
  {
    Side(rec, index, false, up, up, pending)
  }

  /** The state after the first k turns, where the story pauses. */
  function Reunited(): (s: State)   // 5
  {
    State(Quiet(Some(Tomb()), None, true, []), Quiet(Some(Edit(1)), None, true, LATE),
          [Full(Some(Edit(1)))], [Full(Some(Tomb()))])
  }

  function BothBuried(): (s: State)   // 8
  {
    State(Quiet(None, Some(Tomb()), true, []), Quiet(None, Some(Tomb()), true, LATE), [], [])
  }

  function Parted(): (s: State)   // 11
  {
    State(Side(None, Some(Tomb()), false, false, true, []), Side(Some(Edit(2)), Some(Tomb()), false, false, true, []), [], [])
  }

  function Offered(): (s: State)   // 14
  {
    State(Quiet(None, None, true, []), Quiet(Some(Edit(2)), None, true, []), [Full(Some(Edit(2)))], [Full(None)])
  }

  lemma {:induction false} Reconnects(N: Naming)
    ensures TurnsTo(N, Deleted(), RETURN, 5) == Reunited()
  {
    var s := Deleted();
    for k := 0 to 5
      invariant s == TurnsTo(N, Deleted(), RETURN, k)
      invariant k == 0 ==> s == Deleted()
      invariant k == 1 ==> s == Deleted().(b := Deleted().b.(attached := false))
      invariant k == 2 ==> s == Deleted().(a := Deleted().a.(attached := false), b := Deleted().b.(attached := false))
      invariant k == 3 ==> s == State(Deleted().a.(attached := false, joined := false),
                                      Deleted().b.(attached := false, joined := false), [], [])
      invariant k == 4 ==> s == State(Reunited().a, Deleted().b.(attached := false, joined := false), [], Reunited().toB)
      invariant k == 5 ==> s == Reunited()
    {
      Turn1(N, Deleted(), RETURN, k);
      s := Step(N, s, RETURN[k].e);
    }
  }

  function Told(): (s: State)
  {
    Reunited().(b := Reunited().b.(index := Some(Tomb())), toB := [])
  }

  lemma {:induction false} BIsTold(N: Naming)
    ensures Step(N, Reunited(), Deliver(B)) == Told()
  {
  }

  lemma {:induction false} BApplies(N: Naming)
    ensures Step(N, Told(), Reconcile(B, Now)) == ApplyTomb(Told(), B, Tomb())
  {
    EditsAreOld(1);
    TombOverOld(N, Tomb(), 1, Tomb(), Edit(1));
  }

  lemma {:induction false} BCollects(N: Naming)
    ensures Step(N, ApplyTomb(Told(), B, Tomb()), Collect(B))
            == State(Reunited().a, BothBuried().b, [Full(Some(Edit(1))), Delta(Tomb())], [])
  {
    EditsAreOld(1);
    TombOverTomb(N, Tomb(), Tomb(), Tomb());
  }

  lemma {:induction false} BHearsOfIt(N: Naming)
    ensures After(N, Reunited(), Hears(B, false, Now))
            == State(Reunited().a, BothBuried().b, [Full(Some(Edit(1))), Delta(Tomb())], [])
  {
    HearsIs(N, Reunited(), B);
    BIsTold(N);
    BApplies(N);
    BCollects(N);
  }

  /** B applies the deletion and collects it at once, since A advertises it. */
  lemma {:induction false} BBuries(N: Naming)
    ensures TurnsTo(N, Deleted(), RETURN, 6)
            == State(Reunited().a, BothBuried().b, [Full(Some(Edit(1))), Delta(Tomb())], [])
  {
    Reconnects(N);
    Turn1(N, Deleted(), RETURN, 5);
    BHearsOfIt(N);
  }

  /** What A knows once it has heard B's old leaf. */
  function HeardOld(): (s: State)   // 7
  {
    State(Reunited().a.(index := Some(Edit(1))), BothBuried().b, [Delta(Tomb())], [])
  }

  lemma {:induction false} AHearsOld(N: Naming, s: State)
    requires s == State(Reunited().a, BothBuried().b, [Full(Some(Edit(1))), Delta(Tomb())], [])
    ensures After(N, s, Hears(A, false, Now)) == HeardOld()
  {
    EditsAreOld(1);
    TombOverOld(N, Tomb(), 1, Tomb(), Edit(1));
    HearsIs(N, s, A);
    assert Step(N, s, Deliver(A)) == HeardOld();
    assert Step(N, HeardOld(), Reconcile(A, Now)) == HeardOld();
  }

  lemma {:induction false} AHearsOfIt(N: Naming)
    ensures After(N, HeardOld(), Hears(A, false, Now)) == BothBuried()
  {
    EditsAreOld(1);
    TombOverTomb(N, Tomb(), Tomb(), Tomb());
    HearsIs(N, HeardOld(), A);
    var told := State(Reunited().a.(index := Some(Tomb())), BothBuried().b, [], []);
    assert Step(N, HeardOld(), Deliver(A)) == told;
    assert Step(N, told, Reconcile(A, Now)) == told;
  }

  /** A hears B's old leaf, then of the deletion, and collects its own tombstone. */
  lemma {:induction false} ABuries(N: Naming)
    ensures TurnsTo(N, Deleted(), RETURN, 8) == BothBuried()
  {
    BBuries(N);
    Turn1(N, Deleted(), RETURN, 6);
    AHearsOld(N, TurnsTo(N, Deleted(), RETURN, 6));
    Turn1(N, Deleted(), RETURN, 7);
    AHearsOfIt(N);
  }

  function Cut(): (s: State)   // 10
  {
    BothBuried().(a := BothBuried().a.(attached := false), b := BothBuried().b.(attached := false))
  }

  lemma {:induction false} ConnectionDrops(N: Naming)
    ensures TurnsTo(N, Deleted(), RETURN, 10) == Cut()
  {
    ABuries(N);
    Turn1(N, Deleted(), RETURN, 8);
    Turn1(N, Deleted(), RETURN, 9);
  }

  lemma {:induction false} BLandsIt(N: Naming)
    ensures After(N, Cut(), Handles(B, 0, true, Now)) == Parted()
  {
    HandlesIs(N, Cut(), B, 0, true, Now);
    assert Without1(LATE, 0) == [];
    assert Step(N, Cut(), Complete(B, 0, true)) == Parted();
    DetachedSettles(N, Parted(), B, Now);
  }

  /** The connection is gone; the late completion puts the file back on B's record. */
  lemma {:induction false} LateCompletion(N: Naming)
    ensures TurnsTo(N, Deleted(), RETURN, 11) == Parted()
  {
    ConnectionDrops(N);
    Turn1(N, Deleted(), RETURN, 10);
    BLandsIt(N);
  }

  lemma {:induction false} OffersAgain(N: Naming)
    ensures TurnsTo(N, Deleted(), RETURN, 14) == Offered()
  {
    LateCompletion(N);
    Turn1(N, Deleted(), RETURN, 11);
    assert TurnsTo(N, Deleted(), RETURN, 12)
           == State(Parted().a.(joined := false), Parted().b.(joined := false), [], []);
    Turn1(N, Deleted(), RETURN, 12);
    assert TurnsTo(N, Deleted(), RETURN, 13) == State(Offered().a, Parted().b.(joined := false), [], [Full(None)]);
    Turn1(N, Deleted(), RETURN, 13);
  }

  lemma {:induction false} BHearsNothing(N: Naming)
    ensures After(N, Offered(), Hears(B, false, Now)) == Offered().(toB := [])
  {
    HearsIs(N, Offered(), B);
    var s := Offered().(toB := []);
    assert Step(N, Offered(), Deliver(B)) == s;
    assert Step(N, s, Reconcile(B, Now)) == s;
  }

  lemma {:induction false} AWantsIt(N: Naming)
    ensures After(N, Offered().(toB := []), Hears(A, false, Now))
            == State(Side(None, Some(Edit(2)), true, true, true, LATE), Offered().b, [], [])
  {
    HearsIs(N, Offered().(toB := []), A);
    var told := State(Offered().a.(index := Some(Edit(2))), Offered().b, [], []);
    assert Step(N, Offered().(toB := []), Deliver(A)) == told;
    assert Decide(N, None, Some(Edit(2))) == Install(Edit(2));
  }

  lemma {:induction false} AHears(N: Naming)
    ensures TurnsTo(N, Deleted(), RETURN, 16)
            == State(Side(None, Some(Edit(2)), true, true, true, LATE), Offered().b, [], [])
  {
    OffersAgain(N);
    Turn1(N, Deleted(), RETURN, 14);
    BHearsNothing(N);
    Turn1(N, Deleted(), RETURN, 15);
    AWantsIt(N);
  }

  /** A fetches the file and records it; the reconcile that follows finds agreement. */
  lemma {:induction false} AFetchesIt(N: Naming)
    ensures var r := TurnsTo(N, Deleted(), RETURN, |RETURN|); r.a.rec == Some(Edit(2)) && r.b.rec == Some(Edit(2))
  {
    AHears(N);
    var s := TurnsTo(N, Deleted(), RETURN, 16);
    Turn1(N, Deleted(), RETURN, 16);
    HandlesIs(N, s, A, 0, true, Now);
    CompletionRecords(N, s, A, 0);
    var mid := Step(N, s, Complete(A, 0, true));
    SettledRecord(N, mid, A, Now);
    EditsAreOld(2);
    AgreeIsNoOp(N, Edit(2), Edit(2));
  }

  lemma {:induction false} DeletedIsStart()
    ensures Start(Tomb(), 1, Deleted())
  {
    LeqReflexive(Edit(2).version);
    assert At([Counter(1, 2)], 1) == 2;
    assert AllCovered(Edit(2), Fetching());
    DeletionStarts(1, Fetching(), Edit(2));
  }

  /** The deleted file ends up live on both peers, with no tombstone left anywhere on record. */
  lemma {:induction false} DeletedFileReturns(N: Naming)
    ensures Start(Tomb(), 1, Deleted())
    ensures var r := TurnsTo(N, Deleted(), RETURN, |RETURN|); r.a.rec == Some(Edit(2)) && r.b.rec == Some(Edit(2))
  {
    DeletedIsStart();
    AFetchesIt(N);
  }
}
