/**
 One proxied connection: the two copying goroutines, the goroutine that waits for them,
 the peers at both ends and the cancellation, in every interleaving.
 */
module Proxy {
  import opened Wrappers

  type Byte = nat

  /** `ToUpstream` copies from the client to the datacenter, `ToClient` the other way. */
  datatype Direction = ToUpstream | ToClient

  datatype CopierPc = Reading | Writing(chunk: seq<Byte>) | HalfClosing | Signalling | Finished

  /** One direction: what its source has sent, what its copier has delivered, and where the copier is. */
  datatype Pipe = Pipe(
    sent: seq<Byte>, eof: bool,
    taken: nat, delivered: seq<Byte>,
    pc: CopierPc, erred: bool, halfClosed: bool)

  datatype Handler = Relaying | ReturnedDone | ReturnedCancelled

  datatype Connection = Connection(
    up: Pipe, down: Pipe,
    queued: nat, received: nat,
    cancelled: bool, handler: Handler,
    upstreamOpen: bool, clientOpen: bool)
  {
    function Of(d: Direction): Pipe {
      if d.ToUpstream? then up else down
    }

    function With(d: Direction, p: Pipe): Connection {
      if d.ToUpstream? then this.(up := p) else this.(down := p)
    }

    predicate SourceOpen(d: Direction) {
      if d.ToUpstream? then clientOpen else upstreamOpen
    }

    predicate SinkOpen(d: Direction) {
      if d.ToUpstream? then upstreamOpen else clientOpen
    }
  }

  /** What happens to one direction: its peer's doing, or its copier's. */
  datatype PipeEvent =
    | PeerSends(bytes: seq<Byte>)
    | PeerCloses
    | Read(n: nat)
    | SeesEof
    | ReadFails
    | Writes
    | WriteFails(n: nat)
    | HalfCloses(supported: bool)
    | Signals

  datatype Event =
    | On(d: Direction, e: PipeEvent)
    | Cancels
    | Receives
    | SeesCancel
    | ClosesUpstream
    | ClosesClient

  /** The room in the `done` channel. */
  const CAPACITY := 2

  function Opened(): Connection {
    var idle := Pipe([], false, 0, [], Reading, false, false);
    Connection(idle, idle, 0, 0, false, Relaying, true, true)
  }

  predicate PipeEnabled(p: Pipe, e: PipeEvent, sourceOpen: bool, sinkOpen: bool, room: bool) {
    match e
    case PeerSends(_) => !p.eof
    case PeerCloses => !p.eof
    case Read(n) => p.pc.Reading? && sourceOpen && 0 < n && p.taken + n <= |p.sent|
    case SeesEof => p.pc.Reading? && sourceOpen && p.eof && p.taken == |p.sent|
    case ReadFails => p.pc.Reading?
    case Writes => p.pc.Writing? && sinkOpen
    case WriteFails(n) => p.pc.Writing? && n <= |p.pc.chunk| && (sinkOpen || n == 0)
    case HalfCloses(_) => p.pc.HalfClosing?
    case Signals => p.pc.Signalling? && room
  }

  function PipeStep(p: Pipe, e: PipeEvent, sourceOpen: bool, sinkOpen: bool, room: bool): Pipe
    requires PipeEnabled(p, e, sourceOpen, sinkOpen, room)
  {
    match e
    case PeerSends(bytes) => p.(sent := p.sent + bytes)
    case PeerCloses => p.(eof := true)
    case Read(n) => p.(taken := p.taken + n, pc := Writing(p.sent[p.taken..p.taken + n]))
    case SeesEof => p.(pc := HalfClosing)
    case ReadFails => p.(pc := HalfClosing, erred := true)
    case Writes => p.(delivered := p.delivered + p.pc.chunk, pc := Reading)
    case WriteFails(n) => p.(delivered := p.delivered + p.pc.chunk[..n], pc := HalfClosing, erred := true)
    case HalfCloses(supported) => p.(pc := Signalling, halfClosed := supported)
    case Signals => p.(pc := Finished)
  }

  predicate Enabled(c: Connection, e: Event) {
    match e
    case On(d, pe) => PipeEnabled(c.Of(d), pe, c.SourceOpen(d), c.SinkOpen(d), c.queued < CAPACITY)
    case Cancels => !c.cancelled
    case Receives => c.handler.Relaying? && c.queued > 0
    case SeesCancel => c.handler.Relaying? && c.cancelled
    case ClosesUpstream => !c.handler.Relaying? && c.upstreamOpen
    case ClosesClient => !c.handler.Relaying? && !c.upstreamOpen && c.clientOpen
  }

  function Step(c: Connection, e: Event): Connection
    requires Enabled(c, e)
  {
    match e
    case On(d, pe) =>
      var moved := c.With(d, PipeStep(c.Of(d), pe, c.SourceOpen(d), c.SinkOpen(d), c.queued < CAPACITY));
      if pe.Signals? then moved.(queued := c.queued + 1) else moved
    case Cancels => c.(cancelled := true)
    case Receives =>
      c.(queued := c.queued - 1, received := c.received + 1,
         handler := if c.received + 1 == 2 then ReturnedDone else Relaying)
    case SeesCancel => c.(handler := ReturnedCancelled)
    case ClosesUpstream => c.(upstreamOpen := false)
    case ClosesClient => c.(clientOpen := false)
  }

  function Execute(c: Connection, events: seq<Event>): Option<Connection> {
    if events == [] then Some(c)
    else
      match Execute(c, events[..|events| - 1])
      case None => None
      case Some(v) =>
        if Enabled(v, events[|events| - 1]) then Some(Step(v, events[|events| - 1])) else None
  }

  predicate PipeInvariant(p: Pipe) {
    && |p.delivered| <= p.taken <= |p.sent| && p.delivered == p.sent[..|p.delivered|]
    && (match p.pc
        case Reading => !p.erred && |p.delivered| == p.taken
        case Writing(chunk) => !p.erred && p.delivered + chunk == p.sent[..p.taken]
        case _ => p.erred || (p.eof && p.delivered == p.sent))
    && (p.halfClosed ==> p.pc.Signalling? || p.pc.Finished?)
  }

  function Ended(p: Pipe): nat {
    if p.pc.Finished? then 1 else 0
  }

  predicate Invariant(c: Connection) {
    && PipeInvariant(c.up) && PipeInvariant(c.down)
    && c.queued + c.received == Ended(c.up) + Ended(c.down)
    && (c.handler.Relaying? ==> c.received < 2 && c.upstreamOpen && c.clientOpen)
    && (c.handler.ReturnedDone? ==> c.received == 2)
    && (c.handler.ReturnedCancelled? ==> c.cancelled)
  }

  lemma PipeStepKeeps(p: Pipe, e: PipeEvent, sourceOpen: bool, sinkOpen: bool, room: bool)
    requires PipeInvariant(p) && PipeEnabled(p, e, sourceOpen, sinkOpen, room)
    ensures PipeInvariant(PipeStep(p, e, sourceOpen, sinkOpen, room))
    ensures Ended(PipeStep(p, e, sourceOpen, sinkOpen, room)) == Ended(p) + (if e.Signals? then 1 else 0)
  {
    var q := PipeStep(p, e, sourceOpen, sinkOpen, room);
    match e
    case PeerSends(_) =>
      assert q.sent[..|p.delivered|] == p.sent[..|p.delivered|];
      assert q.sent[..p.taken] == p.sent[..p.taken];
    case Read(n) =>
      assert p.sent[..p.taken] + p.sent[p.taken..p.taken + n] == p.sent[..p.taken + n];
    case Writes =>
      assert q.delivered == p.sent[..p.taken];
    case WriteFails(n) =>
      assert q.delivered == p.sent[..p.taken][..|p.delivered| + n];
    case _ =>
  }

  lemma StepKeeps(c: Connection, e: Event)
    requires Invariant(c) && Enabled(c, e)
    ensures Invariant(Step(c, e))
  {
    hide PipeInvariant, PipeStep, PipeEnabled, Ended;
    if e.On? {
      PipeStepKeeps(c.Of(e.d), e.e, c.SourceOpen(e.d), c.SinkOpen(e.d), c.queued < CAPACITY);
    }
  }

  lemma {:induction false} ExecutionKeeps(c: Connection, events: seq<Event>)
    requires Invariant(c)
    ensures match Execute(c, events) case None => true case Some(q) => Invariant(q)
  {
    hide Invariant, Step, Enabled;
    if events != [] {
      ExecutionKeeps(c, events[..|events| - 1]);
      match Execute(c, events[..|events| - 1])
      case None =>
      case Some(v) =>
        if Enabled(v, events[|events| - 1]) {
          StepKeeps(v, events[|events| - 1]);
        }
    }
  }

  lemma ReachableKeeps(events: seq<Event>)
    ensures match Execute(Opened(), events) case None => true case Some(c) => Invariant(c)
  {
    hide Invariant, Execute, Opened;
    OpenedHolds();
    ExecutionKeeps(Opened(), events);
  }

  lemma OpenedHolds()
    ensures Invariant(Opened())
  {
  }

  /**
   In every interleaving, each way: the bytes delivered are a prefix of the bytes sent. When
   the handler returns without having been cancelled, a direction whose copier met no error
   has delivered everything its peer ever sent. A copier ready to report is never blocked.
   */
  lemma NothingIsTruncated(events: seq<Event>, d: Direction)
    ensures match Execute(Opened(), events)
            case None => true
            case Some(c) =>
              && c.Of(d).delivered <= c.Of(d).sent
              && (c.handler.ReturnedDone? && !c.Of(d).erred ==> c.Of(d).eof && c.Of(d).delivered == c.Of(d).sent)
              && (c.Of(d).pc.Signalling? ==> Enabled(c, On(d, Signals)))
  {
    ReachableKeeps(events);
  }

  /** A sink sees end-of-stream from an error-free copier only after every byte its source ever sent. */
  lemma HalfCloseComesLast(events: seq<Event>, d: Direction)
    ensures match Execute(Opened(), events)
            case None => true
            case Some(c) => c.Of(d).halfClosed && !c.Of(d).erred ==> c.Of(d).eof && c.Of(d).delivered == c.Of(d).sent
  {
    ReachableKeeps(events);
  }

  /** Without cancellation the handler outlives both copiers; it never closes a connection under one. */
  lemma HandlerWaits(events: seq<Event>)
    ensures match Execute(Opened(), events)
            case None => true
            case Some(c) =>
              && (c.handler.ReturnedDone? ==> c.up.pc.Finished? && c.down.pc.Finished?)
              && (!c.upstreamOpen || !c.clientOpen ==> c.cancelled || (c.up.pc.Finished? && c.down.pc.Finished?))
  {
    ReachableKeeps(events);
  }

  // ----- What the connection holds is what happened on it -----

  /** All the bytes the source of `d` sent. */
  function SentBy(events: seq<Event>, d: Direction): seq<Byte> {
    if events == [] then []
    else
      var last := events[|events| - 1];
      SentBy(events[..|events| - 1], d) + if last.On? && last.d == d && last.e.PeerSends? then last.e.bytes else []
  }

  /** How many bytes the copier of `d` took in. */
  function TakenBy(events: seq<Event>, d: Direction): nat {
    if events == [] then 0
    else
      var last := events[|events| - 1];
      TakenBy(events[..|events| - 1], d) + if last.On? && last.d == d && last.e.Read? then last.e.n else 0
  }

  /** How many bytes it put out: a write puts out all it holds, a failing one part of it. */
  function PutBy(events: seq<Event>, d: Direction): nat {
    if events == [] then 0
    else
      var before, last := events[..|events| - 1], events[|events| - 1];
      if !last.On? || last.d != d then PutBy(before, d)
      else if last.e.Writes? then TakenBy(before, d)
      else if last.e.WriteFails? then PutBy(before, d) + last.e.n
      else PutBy(before, d)
  }

  ghost predicate Happened(events: seq<Event>, e: Event) {
    exists k :: 0 <= k < |events| && events[k] == e
  }

  ghost predicate WriteFailed(events: seq<Event>, d: Direction) {
    exists n: nat :: Happened(events, On(d, WriteFails(n)))
  }

  function Count(events: seq<Event>, e: Event): nat {
    if events == [] then 0 else Count(events[..|events| - 1], e) + if events[|events| - 1] == e then 1 else 0
  }

  lemma HappenedStep(events: seq<Event>, last: Event, e: Event)
    ensures Happened(events + [last], e) <==> Happened(events, e) || last == e
  {
    if k :| 0 <= k < |events| && events[k] == e {
      assert (events + [last])[k] == e;
    }
    assert (events + [last])[|events|] == last;
  }

  lemma WriteFailedStep(events: seq<Event>, last: Event, d: Direction)
    ensures WriteFailed(events + [last], d) <==> WriteFailed(events, d) || (last.On? && last.d == d && last.e.WriteFails?)
  {
    hide Happened;
    if n: nat :| Happened(events + [last], On(d, WriteFails(n))) {
      HappenedStep(events, last, On(d, WriteFails(n)));
    }
    if n: nat :| Happened(events, On(d, WriteFails(n))) {
      HappenedStep(events, last, On(d, WriteFails(n)));
    }
    if last.On? && last.d == d && last.e.WriteFails? {
      HappenedStep(events, last, On(d, WriteFails(last.e.n)));
    }
  }

  /** The bytes of one direction are those the events moved. */
  predicate BytesTell(p: Pipe, events: seq<Event>, d: Direction) {
    p.sent == SentBy(events, d) && p.taken == TakenBy(events, d) && |p.delivered| == PutBy(events, d)
  }

  /** Its flags and its copier's progress are what the events made them. */
  ghost predicate FlagsTell(p: Pipe, events: seq<Event>, d: Direction) {
    && (p.eof <==> Happened(events, On(d, PeerCloses)))
    && (p.erred <==> Happened(events, On(d, ReadFails)) || WriteFailed(events, d))
    && (p.halfClosed <==> Happened(events, On(d, HalfCloses(true))))
    && (p.pc.Finished? <==> Happened(events, On(d, Signals)))
    && (p.pc.Signalling? || p.pc.Finished? <==>
          Happened(events, On(d, HalfCloses(true))) || Happened(events, On(d, HalfCloses(false))))
  }

  ghost predicate PipeTells(p: Pipe, events: seq<Event>, d: Direction) {
    BytesTell(p, events, d) && FlagsTell(p, events, d)
  }

  ghost predicate HandlerTells(c: Connection, events: seq<Event>) {
    && (c.cancelled <==> Happened(events, Cancels))
    && c.received == Count(events, Receives)
    && (c.handler.ReturnedCancelled? <==> Happened(events, SeesCancel))
    && (c.handler.ReturnedDone? <==> Count(events, Receives) == 2)
    && (c.upstreamOpen <==> !Happened(events, ClosesUpstream))
    && (c.clientOpen <==> !Happened(events, ClosesClient))
  }

  /** A copier holds the bytes it took in and has not put out. */
  lemma HoldsWhatItOwes(p: Pipe)
    requires PipeInvariant(p) && p.pc.Writing?
    ensures |p.delivered| + |p.pc.chunk| == p.taken
  {
    assert |p.delivered + p.pc.chunk| == |p.sent[..p.taken]|;
  }

  /** The direction an event is not about stays as it is. */
  lemma Untouched(c: Connection, e: Event, d: Direction)
    requires Enabled(c, e) && !(e.On? && e.d == d)
    ensures Step(c, e).Of(d) == c.Of(d)
  {
    hide PipeStep, PipeEnabled;
  }

  lemma BytesMove(p: Pipe, events: seq<Event>, e: PipeEvent, d: Direction, sourceOpen: bool, sinkOpen: bool, room: bool)
    requires PipeInvariant(p) && BytesTell(p, events, d) && PipeEnabled(p, e, sourceOpen, sinkOpen, room)
    ensures BytesTell(PipeStep(p, e, sourceOpen, sinkOpen, room), events + [On(d, e)], d)
  {
    hide PipeInvariant;
    assert (events + [On(d, e)])[..|events|] == events;
    if p.pc.Writing? {
      HoldsWhatItOwes(p);
    }
  }

  lemma BytesTellStep(c: Connection, events: seq<Event>, e: Event, d: Direction)
    requires PipeInvariant(c.Of(d)) && BytesTell(c.Of(d), events, d) && Enabled(c, e)
    ensures BytesTell(Step(c, e).Of(d), events + [e], d)
  {
    if e.On? && e.d == d {
      BytesMove(c.Of(d), events, e.e, d, c.SourceOpen(d), c.SinkOpen(d), c.queued < CAPACITY);
      StepMoves(c, e);
    } else {
      hide PipeStep, PipeEnabled, PipeInvariant;
      Untouched(c, e, d);
      assert (events + [e])[..|events|] == events;
    }
  }

  lemma StepMoves(c: Connection, e: Event)
    requires Enabled(c, e) && e.On?
    ensures Step(c, e).Of(e.d) == PipeStep(c.Of(e.d), e.e, c.SourceOpen(e.d), c.SinkOpen(e.d), c.queued < CAPACITY)
  {
    hide PipeStep, PipeEnabled;
  }

  lemma FlagsMove(p: Pipe, events: seq<Event>, e: Event, d: Direction, sourceOpen: bool, sinkOpen: bool, room: bool)
    requires PipeInvariant(p) && FlagsTell(p, events, d) && e.On? && e.d == d
    requires PipeEnabled(p, e.e, sourceOpen, sinkOpen, room)
    ensures FlagsTell(PipeStep(p, e.e, sourceOpen, sinkOpen, room), events + [e], d)
  {
    hide Happened, WriteFailed;
    FlagEvents(events, e, d);
  }

  lemma FlagEvents(events: seq<Event>, e: Event, d: Direction)
    ensures var all := events + [e];
            && (Happened(all, On(d, PeerCloses)) <==> Happened(events, On(d, PeerCloses)) || e == On(d, PeerCloses))
            && (Happened(all, On(d, ReadFails)) <==> Happened(events, On(d, ReadFails)) || e == On(d, ReadFails))
            && (Happened(all, On(d, HalfCloses(true))) <==> Happened(events, On(d, HalfCloses(true))) || e == On(d, HalfCloses(true)))
            && (Happened(all, On(d, HalfCloses(false))) <==> Happened(events, On(d, HalfCloses(false))) || e == On(d, HalfCloses(false)))
            && (Happened(all, On(d, Signals)) <==> Happened(events, On(d, Signals)) || e == On(d, Signals))
            && (WriteFailed(all, d) <==> WriteFailed(events, d) || (e.On? && e.d == d && e.e.WriteFails?))
  {
    hide Happened, WriteFailed;
    HappenedStep(events, e, On(d, PeerCloses));
    HappenedStep(events, e, On(d, ReadFails));
    HappenedStep(events, e, On(d, HalfCloses(true)));
    HappenedStep(events, e, On(d, HalfCloses(false)));
    HappenedStep(events, e, On(d, Signals));
    WriteFailedStep(events, e, d);
  }

  lemma FlagsTellStep(c: Connection, events: seq<Event>, e: Event, d: Direction)
    requires PipeInvariant(c.Of(d)) && FlagsTell(c.Of(d), events, d) && Enabled(c, e)
    ensures FlagsTell(Step(c, e).Of(d), events + [e], d)
  {
    hide Happened, WriteFailed, PipeStep, PipeEnabled, PipeInvariant;
    if e.On? && e.d == d {
      FlagsMove(c.Of(d), events, e, d, c.SourceOpen(d), c.SinkOpen(d), c.queued < CAPACITY);
      StepMoves(c, e);
    } else {
      FlagEvents(events, e, d);
      Untouched(c, e, d);
    }
  }

  lemma HandlerTellsStep(c: Connection, events: seq<Event>, e: Event)
    requires Invariant(c) && HandlerTells(c, events) && Enabled(c, e)
    ensures HandlerTells(Step(c, e), events + [e])
  {
    hide Happened, PipeInvariant, PipeStep, PipeEnabled;
    assert (events + [e])[..|events|] == events;
    HappenedStep(events, e, Cancels);
    HappenedStep(events, e, SeesCancel);
    HappenedStep(events, e, ClosesUpstream);
    HappenedStep(events, e, ClosesClient);
  }

  lemma OpenedTells(d: Direction)
    ensures PipeTells(Opened().Of(d), [], d) && HandlerTells(Opened(), [])
  {
  }

  /**
   In every interleaving: what was sent, taken in and put out, whether a peer closed, a copy
   failed, a sink was half-closed, a copier reported, the handler returned and why, and what it
   closed, are all exactly what the events say.
   */
  lemma {:induction false} LedgerIsExact(events: seq<Event>, d: Direction)
    ensures match Execute(Opened(), events)
            case None => true
            case Some(c) => PipeTells(c.Of(d), events, d) && HandlerTells(c, events)
  {
    hide BytesTell, FlagsTell, HandlerTells, PipeInvariant, Step, Enabled, Opened;
    if events == [] {
      OpenedTells(d);
    } else {
      var last := |events| - 1;
      LedgerIsExact(events[..last], d);
      ReachableKeeps(events[..last]);
      match Execute(Opened(), events[..last])
      case None =>
      case Some(v) =>
        if Enabled(v, events[last]) {
          assert events == events[..last] + [events[last]];
          BytesTellStep(v, events[..last], events[last], d);
          FlagsTellStep(v, events[..last], events[last], d);
          HandlerTellsStep(v, events[..last], events[last]);
        }
    }
  }

  // ----- A transfer can complete -----

  lemma ExecuteThen(c: Connection, events: seq<Event>, v: Connection, e: Event)
    requires Execute(c, events) == Some(v) && Enabled(v, e)
    ensures Execute(c, events + [e]) == Some(Step(v, e))
  {
    assert (events + [e])[..|events|] == events;
  }

  /** What is left of a direction whose source sent `bytes`, closed, and lost nothing. */
  function Done(bytes: seq<Byte>): Pipe {
    Pipe(bytes, true, |bytes|, bytes, Finished, false, true)
  }

  /** The source sends everything and closes; the copier passes all of it on. */
  lemma OneWayBytes(start: Connection, before: seq<Event>, c: Connection, d: Direction, bytes: seq<Byte>)
    returns (events: seq<Event>)
    requires Execute(start, before) == Some(c) && c.Of(d) == Opened().Of(d)
    requires c.upstreamOpen && c.clientOpen
    ensures Execute(start, events) == Some(c.With(d, Pipe(bytes, true, |bytes|, bytes, Reading, false, false)))
  {
    hide Execute, Enabled, Step;
    var p1 := c.Of(d).(sent := bytes);
    var p2 := p1.(eof := true);
    OneStep(start, before, c, c.With(d, p1), d, PeerSends(bytes));
    events := before + [On(d, PeerSends(bytes))];
    OneStep(start, events, c.With(d, p1), c.With(d, p2), d, PeerCloses);
    events := events + [On(d, PeerCloses)];
    if bytes != [] {
      var p3 := p2.(taken := |bytes|, pc := Writing(bytes));
      assert bytes[0..0 + |bytes|] == bytes;
      OneStep(start, events, c.With(d, p2), c.With(d, p3), d, Read(|bytes|));
      events := events + [On(d, Read(|bytes|))];
      OneStep(start, events, c.With(d, p3), c.With(d, p3.(delivered := bytes, pc := Reading)), d, Writes);
      events := events + [On(d, Writes)];
    }
  }

  /** Then it half-closes its sink and reports. */
  lemma OneWay(start: Connection, before: seq<Event>, c: Connection, d: Direction, bytes: seq<Byte>)
    returns (events: seq<Event>)
    requires Execute(start, before) == Some(c) && c.Of(d) == Opened().Of(d)
    requires c.upstreamOpen && c.clientOpen && c.queued < CAPACITY
    ensures Execute(start, events) == Some(c.With(d, Done(bytes)).(queued := c.queued + 1))
  {
    hide Execute, Enabled, Step;
    var p1 := Pipe(bytes, true, |bytes|, bytes, Reading, false, false);
    var p2, p3 := p1.(pc := HalfClosing), p1.(pc := Signalling, halfClosed := true);
    events := OneWayBytes(start, before, c, d, bytes);
    OneStep(start, events, c.With(d, p1), c.With(d, p2), d, SeesEof);
    events := events + [On(d, SeesEof)];
    OneStep(start, events, c.With(d, p2), c.With(d, p3), d, HalfCloses(true));
    events := events + [On(d, HalfCloses(true))];
    OneStep(start, events, c.With(d, p3), c.With(d, Done(bytes)).(queued := c.queued + 1), d, Signals);
    events := events + [On(d, Signals)];
  }

  lemma OneStep(start: Connection, events: seq<Event>, v: Connection, w: Connection, d: Direction, e: PipeEvent)
    requires Execute(start, events) == Some(v)
    requires PipeEnabled(v.Of(d), e, v.SourceOpen(d), v.SinkOpen(d), v.queued < CAPACITY)
    requires var q := PipeStep(v.Of(d), e, v.SourceOpen(d), v.SinkOpen(d), v.queued < CAPACITY);
             w == v.With(d, q).(queued := v.queued + if e.Signals? then 1 else 0)
    ensures Execute(start, events + [On(d, e)]) == Some(w)
  {
    hide Execute, PipeEnabled, PipeStep;
    ExecuteThen(start, events, v, On(d, e));
  }

  /** Whatever the two ends send, there is an interleaving in which all of it arrives, both sinks see its end, and everything is closed. */
  lemma TransferCompletes(up: seq<Byte>, down: seq<Byte>) returns (events: seq<Event>, c: Connection)
    ensures Execute(Opened(), events) == Some(c)
    ensures c.up.sent == c.up.delivered == up && c.down.sent == c.down.delivered == down
    ensures c.up.halfClosed && c.down.halfClosed && c.up.pc.Finished? && c.down.pc.Finished?
    ensures c.handler == ReturnedDone && !c.cancelled && !c.upstreamOpen && !c.clientOpen
  {
    hide Execute;
    assert Execute(Opened(), []) == Some(Opened()) by {
      NothingExecuted();
    }
    events := OneWay(Opened(), [], Opened(), ToUpstream, up);
    c := Opened().With(ToUpstream, Done(up)).(queued := 1);
    events := OneWay(Opened(), events, c, ToClient, down);
    c := c.With(ToClient, Done(down)).(queued := 2);
    ExecuteThen(Opened(), events, c, Receives);
    events, c := events + [Receives], Step(c, Receives);
    ExecuteThen(Opened(), events, c, Receives);
    events, c := events + [Receives], Step(c, Receives);
    ExecuteThen(Opened(), events, c, ClosesUpstream);
    events, c := events + [ClosesUpstream], Step(c, ClosesUpstream);
    ExecuteThen(Opened(), events, c, ClosesClient);
    events, c := events + [ClosesClient], Step(c, ClosesClient);
  }

  /** While the handler relays, cancelling the context gets it out, and both connections are closed. */
  lemma CancellingEndsIt(events: seq<Event>)
    requires Execute(Opened(), events).Some? && Execute(Opened(), events).value.handler.Relaying?
    requires !Execute(Opened(), events).value.cancelled
    ensures var end := Execute(Opened(), events + [Cancels] + [SeesCancel] + [ClosesUpstream] + [ClosesClient]);
            end.Some? && end.value.handler == ReturnedCancelled && Closed(end.value)
  {
    hide Execute;
    ReachableKeeps(events);
    var c := Execute(Opened(), events).value;
    var c1 := c.(cancelled := true);
    var c2 := c1.(handler := ReturnedCancelled);
    var c3 := c2.(upstreamOpen := false);
    ExecuteThen(Opened(), events, c, Cancels);
    ExecuteThen(Opened(), events + [Cancels], c1, SeesCancel);
    ExecuteThen(Opened(), events + [Cancels] + [SeesCancel], c2, ClosesUpstream);
    ExecuteThen(Opened(), events + [Cancels] + [SeesCancel] + [ClosesUpstream], c3, ClosesClient);
  }

  /** A write to an open sink may fail after any part of what the copier holds, and that part has arrived. */
  lemma WritesFailAnywhere(events: seq<Event>, d: Direction, n: nat)
    requires Execute(Opened(), events).Some?
    requires var c := Execute(Opened(), events).value;
             c.Of(d).pc.Writing? && c.SinkOpen(d) && n <= |c.Of(d).pc.chunk|
    ensures var c, end := Execute(Opened(), events).value, Execute(Opened(), events + [On(d, WriteFails(n))]);
            end.Some? && end.value.Of(d).erred && end.value.Of(d).delivered == c.Of(d).delivered + c.Of(d).pc.chunk[..n]
  {
    hide Execute;
    ExecuteThen(Opened(), events, Execute(Opened(), events).value, On(d, WriteFails(n)));
  }

  lemma NothingExecuted()
    ensures Execute(Opened(), []) == Some(Opened())
  {
  }

  // ----- No copier outlives its connection for long -----

  /** Steps a copier takes itself. */
  predicate CopierEvent(e: Event, d: Direction) {
    e.On? && e.d == d && !e.e.PeerSends? && !e.e.PeerCloses?
  }

  function StepsLeft(pc: CopierPc): nat {
    match pc
    case Reading => 3
    case Writing(_) => 3
    case HalfClosing => 2
    case Signalling => 1
    case Finished => 0
  }

  /** A step an unfinished copier can always take. */
  function WayOut(pc: CopierPc): PipeEvent {
    match pc
    case Reading => ReadFails
    case Writing(_) => WriteFails(0)
    case HalfClosing => HalfCloses(true)
    case _ => Signals
  }

  /** How many of the events are steps of the copier of `d`. */
  function OwnSteps(events: seq<Event>, d: Direction): nat {
    if events == [] then 0
    else OwnSteps(events[..|events| - 1], d) + if CopierEvent(events[|events| - 1], d) then 1 else 0
  }

  predicate Closed(c: Connection) {
    !c.upstreamOpen && !c.clientOpen
  }

  /** Over closed connections each step of a copier is one step nearer its end, and nothing else moves it. */
  lemma ClosedStep(c: Connection, e: Event, d: Direction)
    requires Closed(c) && Enabled(c, e)
    ensures Closed(Step(c, e))
    ensures StepsLeft(c.Of(d).pc) == StepsLeft(Step(c, e).Of(d).pc) + (if CopierEvent(e, d) then 1 else 0)
  {
  }

  lemma {:induction false} ClosedRun(c: Connection, more: seq<Event>, d: Direction)
    requires Closed(c)
    ensures match Execute(c, more)
            case None => true
            case Some(q) => Closed(q) && StepsLeft(c.Of(d).pc) == StepsLeft(q.Of(d).pc) + OwnSteps(more, d)
  {
    hide Closed, Step, Enabled, StepsLeft, CopierEvent;
    if more != [] {
      var last := |more| - 1;
      ClosedRun(c, more[..last], d);
      match Execute(c, more[..last])
      case None =>
      case Some(v) =>
        if Enabled(v, more[last]) {
          ClosedStep(v, more[last], d);
        }
    }
  }

  /**
   Once both connections are closed, in every continuation: an unfinished copier always has a
   step it can take, and the steps it has taken and those it has left are together what it
   had left at the start, at most three.
   */
  lemma CopiersTerminate(events: seq<Event>, more: seq<Event>, d: Direction)
    requires Execute(Opened(), events).Some? && Closed(Execute(Opened(), events).value)
    ensures var c := Execute(Opened(), events).value;
            match Execute(c, more)
            case None => true
            case Some(q) =>
              && OwnSteps(more, d) + StepsLeft(q.Of(d).pc) == StepsLeft(c.Of(d).pc) <= 3
              && (q.Of(d).pc.Finished? <==> StepsLeft(q.Of(d).pc) == 0)
              && (!q.Of(d).pc.Finished? ==> Enabled(q, On(d, WayOut(q.Of(d).pc))))
  {
    hide Execute, PipeInvariant, OwnSteps;
    var c := Execute(Opened(), events).value;
    ReachableKeeps(events);
    ExecutionKeeps(c, more);
    ClosedRun(c, more, d);
  }
}
