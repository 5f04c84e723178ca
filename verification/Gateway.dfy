/** The loopback listener: which datacenter a connection is given, and how it shuts down. */
module Gateway {
  import opened Wrappers
  import opened Transport
  import opened Supervision
  import opened Runs
  import opened Proxy

  // ----- Routing -----

  /** What becomes of an accepted connection before any byte is copied. */
  datatype Routed = Dropped | DialFailed(target: Endpoint) | Proxied(target: Endpoint, conn: Connection)

  function Route(s: State, dialled: Endpoint -> bool): Routed {
    match s.ActiveEndpoint()
    case None => Dropped
    case Some(ep) => if dialled(ep) then Proxied(ep, Opened()) else DialFailed(ep)
  }

  /**
   At every point of a run a connection goes to the active endpoint, which is healthy and
   inside the filter in force, and is proxied exactly when dialling it succeeds. It is dropped
   undialled exactly when there is no such endpoint.
   */
  lemma RoutedWhereAllowed(r: Run, k: nat, dialled: Endpoint -> bool)
    requires r.WellFormed() && k <= |r.commits|
    ensures var routed := Route(r.At(k), dialled);
            && (routed.Dropped? <==>
                forall i :: 0 <= i < |r.endpoints| ==>
                  !r.At(k).eps[i].healthy || OutsideFilter(r.endpoints[i], r.FilterAt(k)))
            && (!routed.Dropped? ==>
                  && Some(routed.target) == r.At(k).ActiveEndpoint()
                  && (routed.Proxied? <==> dialled(routed.target))
                  && !OutsideFilter(routed.target, r.FilterAt(k)) && HealthyMember(r, k, routed.target))
  {
    hide Run.At, Run.FilterAt;
    ConsistentAt(r, k);
    var s := r.At(k);
    forall i | 0 <= i < |r.endpoints|
      ensures s.eps[i].disabled == OutsideFilter(r.endpoints[i], r.FilterAt(k))
    {
      DisabledIsFilter(r, k, i);
    }
    if s.active >= 0 {
      assert s.eps[s.active].ep == r.endpoints[s.active];
    }
  }

  ghost predicate HealthyMember(r: Run, k: nat, ep: Endpoint)
    requires r.WellFormed() && k <= |r.commits|
  {
    exists i :: 0 <= i < |r.endpoints| && r.endpoints[i] == ep && r.At(k).eps[i].healthy
  }

  /** A proxied connection starts out untouched, so whatever happens on it, nothing is truncated. */
  lemma ProxiedIsComplete(r: Run, k: nat, dialled: Endpoint -> bool, events: seq<Proxy.Event>, d: Direction)
    requires r.WellFormed() && k <= |r.commits| && Route(r.At(k), dialled).Proxied?
    ensures match Execute(Route(r.At(k), dialled).conn, events)
            case None => true
            case Some(c) =>
              && c.Of(d).delivered <= c.Of(d).sent
              && (c.handler.ReturnedDone? && !c.Of(d).erred ==> c.Of(d).eof && c.Of(d).delivered == c.Of(d).sent)
              && (!c.upstreamOpen || !c.clientOpen ==> c.cancelled || (c.up.pc.Finished? && c.down.pc.Finished?))
  {
    hide Run.At, Execute;
    NothingIsTruncated(events, d);
    HandlerWaits(events);
  }

  // ----- Shutdown -----

  /** The object: the flag the lock protects, and how often the listener was told to close. */
  class Listener {
    var closed: bool
    var listenerCloses: nat

    ghost predicate Valid()
      reads this
    {
      listenerCloses == if closed then 1 else 0
    }

    constructor ()
      ensures Valid() && !closed
    {
      closed, listenerCloses := false, 0;
    }

    /** The locked part of `Close`: true for the one caller that has to close the listener. */
    method Claim() returns (mine: bool)
      modifies this`closed
      ensures closed && mine == !old(closed)
    {
      if closed {
        return false;
      }
      closed := true;
      return true;
    }

    /** One undisturbed call. However often it is called, the listener is closed once. */
    method Close()
      requires Valid()
      modifies this
      ensures Valid() && closed && listenerCloses == 1
    {
      var mine := Claim();
      if mine {
        listenerCloses := listenerCloses + 1;
      }
    }
  }

  datatype Closer = MustClose | DidClose | FoundClosed

  datatype Serving = Accepting | Failed(byClose: bool) | ReturnedNil | ReturnedError(byClose: bool)

  /** Concurrent `Close` calls, one of them made when the context ends, against the accept loop. */
  datatype Shutdown = Shutdown(closed: bool, closers: map<nat, Closer>, listenerCloses: nat, serving: Serving)

  datatype ShutdownEvent =
    | CloseClaims(caller: nat)
    | ClosesListener(caller: nat)
    | Accepts
    | AcceptFails(byClose: bool)
    | ChecksClosed

  predicate CanShut(s: Shutdown, e: ShutdownEvent) {
    match e
    case CloseClaims(t) => t !in s.closers
    case ClosesListener(t) => t in s.closers && s.closers[t] == MustClose
    case Accepts => s.serving.Accepting? && s.listenerCloses == 0
    case AcceptFails(byClose) => s.serving.Accepting? && (byClose ==> s.listenerCloses > 0)
    case ChecksClosed => s.serving.Failed?
  }

  function Shut(s: Shutdown, e: ShutdownEvent): Shutdown
    requires CanShut(s, e)
  {
    match e
    case CloseClaims(t) =>
      s.(closed := true, closers := s.closers[t := if s.closed then FoundClosed else MustClose])
    case ClosesListener(t) => s.(closers := s.closers[t := DidClose], listenerCloses := s.listenerCloses + 1)
    case Accepts => s
    case AcceptFails(byClose) => s.(serving := Failed(byClose))
    case ChecksClosed => s.(serving := if s.closed then ReturnedNil else ReturnedError(s.serving.byClose))
  }

  function ShutAll(events: seq<ShutdownEvent>): Option<Shutdown> {
    if events == [] then Some(Shutdown(false, map[], 0, Accepting))
    else
      match ShutAll(events[..|events| - 1])
      case None => None
      case Some(s) => if CanShut(s, events[|events| - 1]) then Some(Shut(s, events[|events| - 1])) else None
  }

  /** The caller the close is left to. */
  predicate Owns(s: Shutdown, t: nat) {
    t in s.closers && s.closers[t] != FoundClosed
  }

  ghost predicate ShutdownInvariant(s: Shutdown) {
    && (s.closed <==> s.closers != map[])
    && (s.closed ==> exists t :: Owns(s, t))
    && (forall t, u :: Owns(s, t) && Owns(s, u) ==> t == u)
    && (forall t :: Owns(s, t) ==> s.listenerCloses == if s.closers[t] == DidClose then 1 else 0)
    && (!s.closed ==> s.listenerCloses == 0)
    && (s.serving.Failed? && s.serving.byClose ==> s.closed)
    && (s.serving.ReturnedError? ==> !s.serving.byClose)
  }

  lemma ShutKeeps(s: Shutdown, e: ShutdownEvent)
    requires ShutdownInvariant(s) && CanShut(s, e)
    ensures ShutdownInvariant(Shut(s, e))
  {
    var s' := Shut(s, e);
    if s.closed {
      var t :| Owns(s, t);
      assert Owns(s', t);
    } else {
      assert s.closers == map[];
      if e.CloseClaims? {
        assert Owns(s', e.caller);
      }
    }
    if e.ClosesListener? {
      assert Owns(s, e.caller);
    }
    assert forall t :: Owns(s', t) ==> Owns(s, t) || (!s.closed && e.CloseClaims? && t == e.caller);
  }

  lemma {:induction false} ShutdownHolds(events: seq<ShutdownEvent>)
    ensures match ShutAll(events) case None => true case Some(s) => ShutdownInvariant(s)
  {
    hide ShutdownInvariant, Shut, CanShut;
    if events == [] {
      FreshShutdownHolds();
    } else {
      ShutdownHolds(events[..|events| - 1]);
      match ShutAll(events[..|events| - 1])
      case None =>
      case Some(s) =>
        if CanShut(s, events[|events| - 1]) {
          ShutKeeps(s, events[|events| - 1]);
        }
    }
  }

  lemma FreshShutdownHolds()
    ensures ShutdownInvariant(Shutdown(false, map[], 0, Accepting))
  {
  }

  /** Some `Close` call has set the flag. */
  predicate WasClosed(events: seq<ShutdownEvent>) {
    exists k :: 0 <= k < |events| && events[k].CloseClaims?
  }

  function ListenerCloses(events: seq<ShutdownEvent>): nat {
    if events == [] then 0
    else ListenerCloses(events[..|events| - 1]) + if events[|events| - 1].ClosesListener? then 1 else 0
  }

  lemma {:induction false} ShutdownLedger(events: seq<ShutdownEvent>)
    ensures match ShutAll(events)
            case None => true
            case Some(s) => (s.closed <==> WasClosed(events)) && s.listenerCloses == ListenerCloses(events)
  {
    if events != [] {
      var before, last := events[..|events| - 1], events[|events| - 1];
      ShutdownLedger(before);
      assert WasClosed(events) <==> WasClosed(before) || last.CloseClaims?;
    }
  }

  /**
   What `Serve` makes of an accept error: nil exactly when some `Close` call came before it
   looked, otherwise the error itself.
   */
  lemma ServeReports(events: seq<ShutdownEvent>, byClose: bool, during: seq<ShutdownEvent>)
    requires forall k :: 0 <= k < |during| ==> during[k].CloseClaims? || during[k].ClosesListener?
    ensures match ShutAll(events + [AcceptFails(byClose)] + during + [ChecksClosed])
            case None => true
            case Some(s) => s.serving == if WasClosed(events + during) then ReturnedNil else ReturnedError(byClose)
  {
    hide ShutAll;
    var all := events + [AcceptFails(byClose)] + during;
    ServingStays(events, byClose, during);
    ShutdownLedger(all);
    ShutOne(all, ChecksClosed);
    assert WasClosed(all) <==> WasClosed(events + during) by {
      WasClosedSplit(events + [AcceptFails(byClose)], during);
      WasClosedSplit(events, [AcceptFails(byClose)]);
      WasClosedSplit(events, during);
    }
  }

  /**
   From any point where `Serve` still accepts and nobody has called `Close`: another connection
   can be accepted; a `Close` can close the listener, which ends `Serve` without an error; and
   an error of the listener's own ends it with that error.
   */
  lemma ServeCanEnd(events: seq<ShutdownEvent>, t: nat)
    requires ShutAll(events).Some? && ShutAll(events).value.serving.Accepting? && !WasClosed(events)
    ensures ShutAll(events + [Accepts]) == ShutAll(events)
    ensures var end := ShutAll(events + [CloseClaims(t)] + [ClosesListener(t)] + [AcceptFails(true)] + [ChecksClosed]);
            end.Some? && end.value.serving == ReturnedNil && end.value.listenerCloses == 1
    ensures var end := ShutAll(events + [AcceptFails(false)] + [ChecksClosed]);
            end.Some? && end.value.serving == ReturnedError(false)
  {
    hide ShutAll, ShutdownInvariant;
    ShutdownHolds(events);
    ShutdownLedger(events);
    Unclaimed(ShutAll(events).value);
    ShutOne(events, Accepts);
    ShutOne(events, CloseClaims(t));
    ShutOne(events + [CloseClaims(t)], ClosesListener(t));
    ShutOne(events + [CloseClaims(t)] + [ClosesListener(t)], AcceptFails(true));
    ShutOne(events + [CloseClaims(t)] + [ClosesListener(t)] + [AcceptFails(true)], ChecksClosed);
    ShutOne(events, AcceptFails(false));
    ShutOne(events + [AcceptFails(false)], ChecksClosed);
  }

  lemma Unclaimed(s: Shutdown)
    requires ShutdownInvariant(s) && !s.closed
    ensures s.closers == map[] && s.listenerCloses == 0
  {
  }

  lemma WasClosedSplit(a: seq<ShutdownEvent>, b: seq<ShutdownEvent>)
    ensures WasClosed(a + b) <==> WasClosed(a) || WasClosed(b)
    ensures |b| == 1 && !b[0].CloseClaims? ==> !WasClosed(b)
  {
    if k :| 0 <= k < |a| && a[k].CloseClaims? {
      assert (a + b)[k].CloseClaims?;
    }
    if k :| 0 <= k < |b| && b[k].CloseClaims? {
      assert (a + b)[|a| + k].CloseClaims?;
    }
  }

  lemma ShutOne(events: seq<ShutdownEvent>, e: ShutdownEvent)
    ensures ShutAll(events + [e]) ==
            match ShutAll(events) case None => None case Some(s) => if CanShut(s, e) then Some(Shut(s, e)) else None
  {
    assert (events + [e])[..|events|] == events;
  }

  lemma {:induction false} ServingStays(events: seq<ShutdownEvent>, byClose: bool, during: seq<ShutdownEvent>)
    requires forall k :: 0 <= k < |during| ==> during[k].CloseClaims? || during[k].ClosesListener?
    ensures match ShutAll(events + [AcceptFails(byClose)] + during)
            case None => true
            case Some(s) => s.serving == Serving.Failed(byClose)
  {
    hide ShutAll;
    var start := events + [AcceptFails(byClose)];
    if during == [] {
      assert start + during == start;
      ShutOne(events, AcceptFails(byClose));
    } else {
      var last := |during| - 1;
      ServingStays(events, byClose, during[..last]);
      assert start + during == start + during[..last] + [during[last]];
      ShutOne(start + during[..last], during[last]);
    }
  }

  /**
   Under any interleaving of `Close` calls the listener is closed at most once, and exactly
   once as soon as some call was made and none is still on its way to the listener. An accept
   error caused by that close always makes `Serve` return nil.
   */
  lemma ShutdownIsSingleAndClean(events: seq<ShutdownEvent>)
    ensures match ShutAll(events)
            case None => true
            case Some(s) =>
              && s.listenerCloses <= 1
              && (s.closers != map[] && (forall t :: t in s.closers ==> s.closers[t] != MustClose) ==>
                    s.listenerCloses == 1)
              && (s.serving.Failed? && s.serving.byClose ==> Shut(s, ChecksClosed).serving.ReturnedNil?)
              && (s.serving.ReturnedError? ==> !s.serving.byClose)
  {
    ShutdownHolds(events);
    match ShutAll(events)
    case None =>
    case Some(s) =>
      if s.closed {
        var t :| Owns(s, t);
      }
  }
}
