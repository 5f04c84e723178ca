/** The cached SSH client that concurrent dialers share and droppers replace. */
module SshClient {
  import opened Wrappers

  /** Clients are numbered in the order their handshakes complete. */
  type ClientId = nat

  datatype ConnectError = NoHostKey | HandshakeFailed

  // ----- The two critical sections -----

  /** The locked state: the cached client, and how many clients were ever established. */
  datatype Cache = Cache(client: Option<ClientId>, established: nat)

  /** What `connect` leaves behind. */
  function Connected(c: Cache, hostKey: bool, handshake: bool): (Cache, Result<ClientId, ConnectError>) {
    match c.client
    case Some(id) => (c, Ok(id))
    case None =>
      if !hostKey then (c, Err(NoHostKey))
      else if !handshake then (c, Err(HandshakeFailed))
      else (Cache(Some(c.established), c.established + 1), Ok(c.established))
  }

  class SshForward {
    const hostKey: bool
    var client: Option<ClientId>
    var established: nat
    /** The clients closed so far, in order. */
    ghost var closed: seq<ClientId>

    function View(): Cache
      reads this
    {
      Cache(client, established)
    }

    /** Between calls every established client is cached or closed, and none twice. */
    ghost predicate Valid()
      reads this
    {
      && (forall id :: 0 <= id < established ==>
            (client == Some(id) || id in closed) && !(client == Some(id) && id in closed))
      && (forall id :: id in closed ==> id < established)
      && (client.Some? ==> client.value < established)
      && (forall j, k :: 0 <= j < k < |closed| ==> closed[j] != closed[k])
    }

    constructor (hostKey: bool)
      ensures Valid() && View() == Cache(None, 0) && closed == [] && this.hostKey == hostKey
    {
      this.hostKey := hostKey;
      client, established, closed := None, 0, [];
    }

    /** Returns the cached client, or establishes one; fails closed without a host key. */
    method Connect(handshake: bool) returns (r: Result<ClientId, ConnectError>)
      requires Valid()
      modifies this
      ensures Valid() && closed == old(closed)
      ensures (View(), r) == Connected(old(View()), hostKey, handshake)
      ensures old(client).Some? ==> r == Ok(old(client).value) && View() == old(View())
      ensures old(client).None? && !hostKey ==> r == Err(NoHostKey) && View() == old(View())
      ensures old(client).None? && hostKey && !handshake ==> r == Err(HandshakeFailed) && View() == old(View())
      ensures old(client).None? && hostKey && handshake ==>
                r == Ok(old(established)) && client == Some(old(established)) && established == old(established) + 1
    {
      if client.Some? {
        return Ok(client.value);
      }
      if !hostKey {
        return Err(NoHostKey);
      }
      if !handshake {
        return Err(HandshakeFailed);
      }
      client := Some(established);
      established := established + 1;
      return Ok(client.value);
    }

    /** Empties the cache and closes what was in it. */
    method DropClient()
      requires Valid()
      modifies this
      ensures Valid() && View() == Cache(None, old(established))
      ensures closed == old(closed) + (if old(client).Some? then [old(client).value] else [])
    {
      var c := client;
      client := None;
      if c.Some? {
        closed := closed + [c.value];
      }
    }

    /** A forward over the shared client; a failure drops it so that the next call reconnects. */
    method Dial(handshake: bool, forward: bool) returns (ok: bool)
      requires Valid()
      modifies this
      ensures Valid()
      ensures ok <==> Connected(old(View()), hostKey, handshake).1.Ok? && forward
      ensures ok ==> client.Some? && closed == old(closed)
      ensures !ok && Connected(old(View()), hostKey, handshake).1.Ok? ==>
                client == None && closed == old(closed) + [Connected(old(View()), hostKey, handshake).1.value]
    {
      var r := Connect(handshake);
      if r.Err? {
        return false;
      }
      if !forward {
        DropClient();
        return false;
      }
      return true;
    }
  }

  // ----- Concurrent callers -----

  /** Where one goroutine is. `failed` is the client its forward failed on; none inside `Close`. */
  datatype Caller =
    | Idle
    | Using(client: ClientId)
    | Dropping(failed: Option<ClientId>)
    | Holding(taken: Option<ClientId>)

  datatype Pool = Pool(cache: Cache, callers: map<nat, Caller>, closed: seq<ClientId>)
  {
    function StateOf(t: nat): Caller {
      if t in callers then callers[t] else Idle
    }

    predicate Cached(id: ClientId) {
      cache.client == Some(id)
    }

    predicate HeldBy(t: nat, id: ClientId) {
      StateOf(t) == Holding(Some(id))
    }
  }

  datatype Event =
    | Connects(t: nat, hostKey: bool, handshake: bool)
    | ForwardSucceeds(t: nat)
    | ForwardFails(t: nat)
    | CallsClose(t: nat)
    | TakesClient(t: nat)
    | ClosesTaken(t: nat)

  predicate Enabled(p: Pool, e: Event) {
    match e
    case Connects(t, _, _) => p.StateOf(t).Idle?
    case ForwardSucceeds(t) => p.StateOf(t).Using?
    case ForwardFails(t) => p.StateOf(t).Using?
    case CallsClose(t) => p.StateOf(t).Idle?
    case TakesClient(t) => p.StateOf(t).Dropping?
    case ClosesTaken(t) => p.StateOf(t).Holding?
  }

  /** The critical sections, and what each event does to the goroutine taking it. */
  function NextCaller(p: Pool, e: Event): Caller
    requires Enabled(p, e)
  {
    match e
    case Connects(_, hostKey, handshake) =>
      var r := Connected(p.cache, hostKey, handshake).1;
      if r.Ok? then Using(r.value) else Idle
    case ForwardSucceeds(_) => Idle
    case ForwardFails(t) => Dropping(Some(p.StateOf(t).client))
    case CallsClose(_) => Dropping(None)
    case TakesClient(_) => Holding(p.cache.client)
    case ClosesTaken(_) => Idle
  }

  function Step(p: Pool, e: Event): (q: Pool)
    requires Enabled(p, e)
    ensures forall u :: q.StateOf(u) == if u == e.t then NextCaller(p, e) else p.StateOf(u)
  {
    Pool(
      match e
      case Connects(_, hostKey, handshake) => Connected(p.cache, hostKey, handshake).0
      case TakesClient(_) => p.cache.(client := None)
      case _ => p.cache,
      p.callers[e.t := NextCaller(p, e)],
      if e.ClosesTaken? && p.StateOf(e.t).taken.Some? then p.closed + [p.StateOf(e.t).taken.value] else p.closed)
  }

  function Execute(p: Pool, events: seq<Event>): Option<Pool> {
    if events == [] then Some(p)
    else
      match Execute(p, events[..|events| - 1])
      case None => None
      case Some(v) =>
        if Enabled(v, events[|events| - 1]) then Some(Step(v, events[|events| - 1])) else None
  }

  /** Whether the events leave the cache empty: nobody established a client since the last drop. */
  predicate LeftEmpty(events: seq<Event>) {
    events == []
    || (var last := events[|events| - 1];
        last.TakesClient? || (LeftEmpty(events[..|events| - 1]) && !(last.Connects? && last.hostKey && last.handshake)))
  }

  /** The number of connects that met an empty cache with a host key to check against and a handshake that passed. */
  function Handshakes(events: seq<Event>): nat {
    if events == [] then 0
    else
      var before, last := events[..|events| - 1], events[|events| - 1];
      Handshakes(before) + if last.Connects? && last.hostKey && last.handshake && LeftEmpty(before) then 1 else 0
  }

  const EMPTY := Pool(Cache(None, 0), map[], [])

  /** A client that exists is in exactly one place. */
  ghost predicate InOnePlace(p: Pool, id: ClientId) {
    || (p.Cached(id) && id !in p.closed && forall t :: !p.HeldBy(t, id))
    || (!p.Cached(id) && id in p.closed && forall t :: !p.HeldBy(t, id))
    || (!p.Cached(id) && id !in p.closed && exists t :: p.HeldBy(t, id))
  }

  ghost predicate Conserved(p: Pool) {
    && (forall id: nat :: id < p.cache.established ==> InOnePlace(p, id))
    && (forall id: nat :: p.Cached(id) || id in p.closed ==> id < p.cache.established)
    && (forall t: nat, id: nat :: p.HeldBy(t, id) ==> id < p.cache.established)
    && (forall t: nat, u: nat, id: nat :: p.HeldBy(t, id) && p.HeldBy(u, id) ==> t == u)
    && (forall j, k :: 0 <= j < k < |p.closed| ==> p.closed[j] != p.closed[k])
  }

  /** The cached client is the newest one, and no caller knows a client that does not exist. */
  ghost predicate Ordered(p: Pool) {
    && (p.cache.client.Some? ==> p.cache.client.value + 1 == p.cache.established)
    && (forall t :: p.StateOf(t).Using? ==> p.StateOf(t).client < p.cache.established)
    && (forall t :: p.StateOf(t).Dropping? && p.StateOf(t).failed.Some? ==> p.StateOf(t).failed.value < p.cache.established)
  }

  lemma StepKeepsPlaces(p: Pool, e: Event, id: ClientId)
    requires Conserved(p) && Ordered(p) && Enabled(p, e) && id < Step(p, e).cache.established
    ensures InOnePlace(Step(p, e), id)
  {
    var p' := Step(p, e);
    if id == p.cache.established {
      assert e.Connects? && p'.Cached(id) && id !in p'.closed;
      assert forall u :: p'.HeldBy(u, id) ==> p.HeldBy(u, id);
    } else {
      assert InOnePlace(p, id);
      assert forall u :: u != e.t ==> (p'.HeldBy(u, id) <==> p.HeldBy(u, id));
      assert p'.HeldBy(e.t, id) <==> e.TakesClient? && p.Cached(id);
      assert p'.Cached(id) <==> p.Cached(id) && !e.TakesClient?;
      assert id in p'.closed <==> id in p.closed || (e.ClosesTaken? && p.HeldBy(e.t, id));
      if p.HeldBy(e.t, id) {
        assert e.ClosesTaken? && p'.closed == p.closed + [id];
      } else if t: nat :| p.HeldBy(t, id) {
        assert p'.HeldBy(t, id);
      } else if p.Cached(id) && e.TakesClient? {
        assert p'.HeldBy(e.t, id);
      }
    }
  }

  lemma StepKeeps(p: Pool, e: Event)
    requires Conserved(p) && Ordered(p) && Enabled(p, e)
    ensures Conserved(Step(p, e)) && Ordered(Step(p, e))
  {
    var p' := Step(p, e);
    forall id: nat | id < p'.cache.established ensures InOnePlace(p', id) {
      StepKeepsPlaces(p, e, id);
    }
    forall t: nat, id: nat | p'.HeldBy(t, id)
      ensures id < p'.cache.established && forall u: nat :: p'.HeldBy(u, id) ==> t == u
    {
      assert forall u: nat :: p'.HeldBy(u, id) ==> if u == e.t then e.TakesClient? && p.Cached(id) else p.HeldBy(u, id);
      assert InOnePlace(p, id);
    }
    if e.ClosesTaken? && p.StateOf(e.t).taken.Some? {
      assert p.HeldBy(e.t, p.StateOf(e.t).taken.value);
      assert InOnePlace(p, p.StateOf(e.t).taken.value);
    }
  }

  lemma {:induction false} ExecutionKeeps(p: Pool, events: seq<Event>)
    requires Conserved(p) && Ordered(p)
    ensures match Execute(p, events) case None => true case Some(q) => Conserved(q) && Ordered(q)
  {
    hide Conserved, Ordered, Step, Enabled;
    if events != [] {
      ExecutionKeeps(p, events[..|events| - 1]);
      match Execute(p, events[..|events| - 1])
      case None =>
      case Some(v) =>
        if Enabled(v, events[|events| - 1]) {
          StepKeeps(v, events[|events| - 1]);
        }
    }
  }

  lemma ReachableHolds(events: seq<Event>)
    ensures match Execute(EMPTY, events) case None => true case Some(p) => Conserved(p) && Ordered(p)
  {
    ExecutionKeeps(EMPTY, events);
  }

  /**
   Under any interleaving of dials, probes and closes, every client ever established is in
   exactly one place: cached, held by exactly one dropper about to close it, or closed. None
   is closed twice.
   */
  lemma ClientsAreConserved(events: seq<Event>, id: ClientId)
    ensures match Execute(EMPTY, events)
            case None => true
            case Some(p) =>
              && (id < p.cache.established <==> p.Cached(id) || id in p.closed || exists t :: p.HeldBy(t, id))
              && (id < p.cache.established ==> InOnePlace(p, id))
              && (forall t, u :: p.HeldBy(t, id) && p.HeldBy(u, id) ==> t == u)
              && multiset(p.closed)[id] <= 1
  {
    ReachableHolds(events);
    match Execute(EMPTY, events)
    case None =>
    case Some(p) =>
      DistinctCountsOnce(p.closed, id);
      assert id < p.cache.established ==> InOnePlace(p, id);
  }

  lemma {:induction false} DistinctCountsOnce(xs: seq<ClientId>, x: ClientId)
    requires forall j, k :: 0 <= j < k < |xs| ==> xs[j] != xs[k]
    ensures multiset(xs)[x] <= 1
  {
    if xs != [] {
      var last := |xs| - 1;
      DistinctCountsOnce(xs[..last], x);
      assert xs == xs[..last] + [xs[last]];
      if xs[last] == x {
        assert x !in xs[..last];
      }
    }
  }

  /**
   In every interleaving: a client is established by, and only by, a connect that meets an
   empty cache, has a host key to check the server against, and completes its handshake; the
   newest of them is what a non-empty cache holds.
   */
  lemma {:induction false} EstablishedByHandshakes(events: seq<Event>)
    ensures match Execute(EMPTY, events)
            case None => true
            case Some(p) =>
              && p.cache.established == Handshakes(events)
              && p.cache.client == (if LeftEmpty(events) then None else Some(Handshakes(events) - 1))
              && (!LeftEmpty(events) ==> Handshakes(events) > 0)
  {
    if events != [] {
      EstablishedByHandshakes(events[..|events| - 1]);
    }
  }

  lemma {:induction false} NoKeyNoHandshake(events: seq<Event>)
    requires forall k :: 0 <= k < |events| && events[k].Connects? ==> !events[k].hostKey
    ensures Handshakes(events) == 0 && LeftEmpty(events)
  {
    if events != [] {
      NoKeyNoHandshake(events[..|events| - 1]);
    }
  }

  /**
   Undisturbed, the steps of a `Close` do what `SshForward.DropClient` does: the cache is
   emptied and what was in it is closed.
   */
  lemma UndisturbedClose(p: Pool, t: nat)
    requires p.StateOf(t).Idle?
    ensures match Execute(p, [CallsClose(t), TakesClient(t), ClosesTaken(t)])
            case None => false
            case Some(q) =>
              && q.cache == Cache(None, p.cache.established) && q.StateOf(t).Idle?
              && q.closed == p.closed + (if p.cache.client.Some? then [p.cache.client.value] else [])
  {
    hide Execute;
    var events := [CallsClose(t), TakesClient(t), ClosesTaken(t)];
    var p1 := Step(p, events[0]);
    var p2 := Step(p1, events[1]);
    Unroll(p, events, 0, p, p1);
    Unroll(p, events, 1, p1, p2);
    Unroll(p, events, 2, p2, Step(p2, events[2]));
    assert events[..3] == events;
  }

  /** The steps of one call to `Dial` that gets a client. */
  function DialSteps(t: nat, hostKey: bool, handshake: bool, forward: bool): seq<Event> {
    [Connects(t, hostKey, handshake)]
    + if forward then [ForwardSucceeds(t)] else [ForwardFails(t), TakesClient(t), ClosesTaken(t)]
  }

  /**
   Undisturbed, those steps do what `SshForward.Dial` does: a forward that succeeds keeps the
   client it used, one that fails closes it.
   */
  lemma UndisturbedDial(p: Pool, t: nat, hostKey: bool, handshake: bool, forward: bool, c: ClientId)
    requires p.StateOf(t).Idle?
    requires if p.cache.client.Some? then p.Cached(c) else hostKey && handshake && c == p.cache.established
    ensures match Execute(p, DialSteps(t, hostKey, handshake, forward))
            case None => false
            case Some(q) =>
              && q.StateOf(t).Idle?
              && q.cache.client == (if forward then Some(c) else None)
              && q.closed == (if forward then p.closed else p.closed + [c])
  {
    hide Execute;
    var events := DialSteps(t, hostKey, handshake, forward);
    var p1 := Step(p, events[0]);
    var p2 := Step(p1, events[1]);
    Unroll(p, events, 0, p, p1);
    Unroll(p, events, 1, p1, p2);
    if forward {
      assert events[..2] == events;
    } else {
      var p3 := Step(p2, events[2]);
      Unroll(p, events, 2, p2, p3);
      Unroll(p, events, 3, p3, Step(p3, events[3]));
      assert events[..4] == events;
    }
  }

  /** Fail closed: without a host key nothing is ever established, and every connect is refused for that reason. */
  lemma FailsClosed(events: seq<Event>, handshake: bool)
    requires forall k :: 0 <= k < |events| && events[k].Connects? ==> !events[k].hostKey
    ensures match Execute(EMPTY, events)
            case None => true
            case Some(p) =>
              && p.cache == Cache(None, 0)
              && Connected(p.cache, false, handshake) == (p.cache, Err(NoHostKey))
              && (forall t: nat :: !p.StateOf(t).Using?)
  {
    hide Execute, Conserved;
    NoKeyNoHandshake(events);
    EstablishedByHandshakes(events);
    ReachableHolds(events);
  }

  /** A client nobody failed on is kept: without a failed forward or a close, nothing is dropped and at most one is established. */
  lemma {:induction false} QuietPoolKeepsItsClient(events: seq<Event>)
    requires forall k :: 0 <= k < |events| ==> !events[k].ForwardFails? && !events[k].CallsClose?
    ensures match Execute(EMPTY, events)
            case None => true
            case Some(p) =>
              && p.closed == [] && p.cache.established <= 1
              && p.cache.client == (if p.cache.established == 1 then Some(0) else None)
              && forall t: nat :: p.StateOf(t).Idle? || p.StateOf(t) == Using(0)
  {
    if events != [] {
      QuietPoolKeepsItsClient(events[..|events| - 1]);
    }
  }

  /** A client that has left the cache never comes back to it. */
  lemma {:induction false} GoneForGood(p: Pool, events: seq<Event>, c: ClientId)
    requires c < p.cache.established && !p.Cached(c)
    ensures match Execute(p, events)
            case None => true
            case Some(q) => c < q.cache.established && !q.Cached(c)
  {
    if events != [] {
      GoneForGood(p, events[..|events| - 1], c);
    }
  }

  /** No caller takes the client out of the cache. */
  predicate NobodyDrops(events: seq<Event>) {
    forall k :: 0 <= k < |events| ==> !events[k].TakesClient?
  }

  /** A cached client stays cached exactly as long as nobody drops. */
  lemma {:induction false} CachedUntilDrop(p: Pool, events: seq<Event>, c: ClientId)
    requires p.Cached(c) && c < p.cache.established
    ensures match Execute(p, events)
            case None => true
            case Some(q) => c < q.cache.established && (q.Cached(c) <==> NobodyDrops(events))
  {
    if events != [] {
      var before, last := events[..|events| - 1], events[|events| - 1];
      CachedUntilDrop(p, before, c);
      assert NobodyDrops(events) <==> NobodyDrops(before) && !last.TakesClient?;
    }
  }

  /**
   A caller connects and gets `c`; whatever happens next, when it has failed on `c` and makes
   its drop, it takes `c` itself exactly when nobody has dropped since it connected. Otherwise
   it takes nothing, or a client established after `c`, which had done nothing wrong.
   */
  lemma DropTakes(before: seq<Event>, t: nat, hostKey: bool, handshake: bool, c: ClientId, after: seq<Event>)
    requires Execute(EMPTY, before).Some? && Enabled(Execute(EMPTY, before).value, Connects(t, hostKey, handshake))
    requires Connected(Execute(EMPTY, before).value.cache, hostKey, handshake).1 == Ok(c)
    ensures match Execute(Step(Execute(EMPTY, before).value, Connects(t, hostKey, handshake)), after)
            case None => true
            case Some(q) =>
              q.StateOf(t) == Dropping(Some(c)) ==>
                match Step(q, TakesClient(t)).StateOf(t).taken
                case None => !NobodyDrops(after)
                case Some(d) => if NobodyDrops(after) then d == c else d > c
  {
    hide Execute, Conserved, NobodyDrops;
    ReachableHolds(before);
    var p := Step(Execute(EMPTY, before).value, Connects(t, hostKey, handshake));
    StepKeeps(Execute(EMPTY, before).value, Connects(t, hostKey, handshake));
    ExecutionKeeps(p, after);
    CachedUntilDrop(p, after, c);
  }

  /** Both fail; the first drops, closes and reconnects; then the second drops. */
  function StaleDrop(t: nat, u: nat): seq<Event> {
    [ForwardFails(t), ForwardFails(u), TakesClient(t), ClosesTaken(t), Connects(t, true, true), TakesClient(u)]
  }

  lemma Unroll(start: Pool, events: seq<Event>, k: nat, p: Pool, q: Pool)
    requires k < |events| && (k == 0 ==> p == start)
    requires k > 0 ==> Execute(start, events[..k]) == Some(p)
    requires Enabled(p, events[k]) && Step(p, events[k]) == q
    ensures Execute(start, events[..k + 1]) == Some(q)
  {
    assert events[..k + 1][..k] == events[..k];
    assert Execute(start, []) == Some(start);
  }

  /** Whenever two callers share the cached client, the slower to drop can tear down the other's replacement. */
  lemma SharersCanCollide(p: Pool, t: nat, u: nat, c: ClientId)
    requires t != u && p.StateOf(t) == p.StateOf(u) == Using(c) && p.Cached(c) && c < p.cache.established
    ensures match Execute(p, StaleDrop(t, u))
            case None => false
            case Some(q) =>
              && q.HeldBy(u, p.cache.established) && q.StateOf(t) == Using(p.cache.established)
              && q.closed == p.closed + [c]
  {
    hide Execute;
    var events := StaleDrop(t, u);
    var p1 := Step(p, events[0]);
    var p2 := Step(p1, events[1]);
    var p3 := Step(p2, events[2]);
    var p4 := Step(p3, events[3]);
    var p5 := Step(p4, events[4]);
    Unroll(p, events, 0, p, p1);
    Unroll(p, events, 1, p1, p2);
    Unroll(p, events, 2, p2, p3);
    Unroll(p, events, 3, p3, p4);
    Unroll(p, events, 4, p4, p5);
    Unroll(p, events, 5, p5, Step(p5, events[5]));
    assert events[..6] == events;
  }

  /** Two callers fail on client 0; the slower one takes client 1 out of the cache, which the other is using. */
  lemma DropMayHitTheReplacement()
    ensures match Execute(EMPTY, [Connects(0, true, true), Connects(1, true, true)])
            case None => false
            case Some(p) =>
              match Execute(p, StaleDrop(0, 1))
              case None => false
              case Some(q) => q.HeldBy(1, 1) && q.StateOf(0) == Using(1) && q.closed == [0]
  {
    hide Execute;
    var events := [Connects(0, true, true), Connects(1, true, true)];
    var p1 := Step(EMPTY, events[0]);
    var p2 := Step(p1, events[1]);
    Unroll(EMPTY, events, 0, EMPTY, p1);
    Unroll(EMPTY, events, 1, p1, p2);
    assert events[..2] == events;
    SharersCanCollide(p2, 0, 1, 0);
  }

  /** Once a caller that failed on `c` has made its drop, no connect ever hands out `c` again. */
  lemma FailedClientIsNotReused(before: seq<Event>, t: nat, c: ClientId, after: seq<Event>, u: nat)
    requires Execute(EMPTY, before).Some?
    requires Execute(EMPTY, before).value.StateOf(t) == Dropping(Some(c))
    ensures match Execute(Step(Execute(EMPTY, before).value, TakesClient(t)), after)
            case None => true
            case Some(q) => forall hostKey, handshake :: Connected(q.cache, hostKey, handshake).1 != Ok(c)
  {
    ReachableHolds(before);
    GoneForGood(Step(Execute(EMPTY, before).value, TakesClient(t)), after, c);
  }
}
