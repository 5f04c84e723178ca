/**
 The failover Supervisor as transitions on values: what one probe round and one
 cluster-filter call do to the endpoint list and to the active choice.
 */
module Supervision {
  import opened Wrappers
  import opened Transport
  import opened Clock

  datatype Health = Unknown | Up | Down

  /** The zero clock. It is stored with an unhealthy endpoint and never read there. */
  const ZERO_TIME: int := 0

  datatype EpState = EpState(
    ep: Endpoint,
    health: Health,
    healthy: bool,
    upSince: int,
    disabled: bool)
  {
    /** Selection may only ever land on an endpoint that is healthy and enabled. */
    predicate Selectable() {
      healthy && !disabled
    }
  }

  /** `active` indexes `eps`, or is -1 when nothing is selected. */
  datatype State = State(eps: seq<EpState>, active: int, allDown: bool)
  {
    predicate WellFormed() {
      -1 <= active < |eps|
    }

    /** The previous choice still works, so hold-down applies to leaving it. */
    predicate ActiveHealthy() {
      0 <= active < |eps| && eps[active].Selectable()
    }

    /** What the Gateway is told to dial. */
    function ActiveEndpoint(): Option<Endpoint> {
      if 0 <= active < |eps| then Some(eps[active].ep) else None
    }
  }

  datatype Switch = Switch(
    fromName: string, toName: string,
    fromLabel: string, toLabel: string,
    fromCluster: string, toCluster: string,
    fromClusterLabel: string, toClusterLabel: string,
    allDown: bool)

  /** One critical section: a committed probe round, or a filter call. */
  datatype Commit =
    | Round(now: int, oks: seq<bool>)
    | Filter(cluster: string, now: int)

  datatype Outcome = Outcome(state: State, switch: Option<Switch>)

  datatype Options = Options(interval: int, holdDown: int, probeTimeout: int)
  {
    function WithDefaults(): (r: Options)
      ensures r.interval > 0 && r.holdDown > 0 && r.probeTimeout > 0
      ensures interval > 0 ==> r.interval == interval
      ensures holdDown > 0 ==> r.holdDown == holdDown
      ensures probeTimeout > 0 ==> r.probeTimeout == probeTimeout
      ensures interval <= 0 ==> r.interval == 3_000_000_000
      ensures holdDown <= 0 ==> r.holdDown == 15_000_000_000
      ensures probeTimeout <= 0 ==> r.probeTimeout == 4_000_000_000
    {
      Options(
        if interval <= 0 then 3 * SECOND else interval,
        if holdDown <= 0 then 15 * SECOND else holdDown,
        if probeTimeout <= 0 then 4 * SECOND else probeTimeout)
    }
  }

  // ----- What a critical section writes before it reselects -----

  function Fresh(ep: Endpoint): EpState {
    EpState(ep, Unknown, false, ZERO_TIME, false)
  }

  function Initial(endpoints: seq<Endpoint>): State {
    State(seq(|endpoints|, i requires 0 <= i < |endpoints| => Fresh(endpoints[i])), -1, true)
  }

  /** One probe result: a failure counts at once, a first success starts the hold-down clock. */
  function Observe(e: EpState, ok: bool, now: int): EpState {
    if ok then e.(health := Up, healthy := true, upSince := if e.healthy then e.upSince else now)
    else e.(health := Down, healthy := false, upSince := ZERO_TIME)
  }

  predicate OutsideFilter(ep: Endpoint, cluster: string) {
    cluster != "" && ep.cluster != cluster
  }

  predicate Fits(c: Commit, n: nat) {
    c.Round? ==> |c.oks| == n
  }

  function Update(s: State, c: Commit): (r: State)
    requires Fits(c, |s.eps|)
    ensures |r.eps| == |s.eps| && r.active == s.active && r.allDown == s.allDown
    ensures forall i :: 0 <= i < |s.eps| ==> r.eps[i].ep == s.eps[i].ep
  {
    match c
    case Round(now, oks) =>
      s.(eps := seq(|s.eps|, i requires 0 <= i < |s.eps| => Observe(s.eps[i], oks[i], now)))
    case Filter(cluster, _) =>
      s.(eps := seq(|s.eps|, i requires 0 <= i < |s.eps| =>
                      s.eps[i].(disabled := OutsideFilter(s.eps[i].ep, cluster))))
  }

  // ----- Reselection -----

  /** The scan stops at index `i`. */
  predicate Stops(s: State, now: int, holdDown: int, i: nat)
    requires i < |s.eps|
  {
    && s.eps[i].Selectable()
    && (|| !s.ActiveHealthy()
        || i == s.active
        || (i < s.active && now - s.eps[i].upSince >= holdDown))
  }

  /** Where the scan stops when it has already passed every index below `i`; -1 when it runs out. */
  function ScanFrom(s: State, now: int, holdDown: int, i: nat): (best: int)
    requires i <= |s.eps|
    ensures -1 <= best < |s.eps|
    ensures best >= 0 ==> i <= best && Stops(s, now, holdDown, best)
    ensures forall j :: i <= j < (if best >= 0 then best else |s.eps|) ==> !Stops(s, now, holdDown, j)
    decreases |s.eps| - i
  {
    if i == |s.eps| then -1
    else if Stops(s, now, holdDown, i) then i
    else ScanFrom(s, now, holdDown, i + 1)
  }

  function Choice(s: State, now: int, holdDown: int): int {
    ScanFrom(s, now, holdDown, 0)
  }

  function SwitchTo(s: State, best: int): Switch
    requires s.WellFormed() && -1 <= best < |s.eps|
  {
    var nobody := Endpoint("", "", "", "", 0);
    var from := if s.active >= 0 then s.eps[s.active].ep else nobody;
    var to := if best >= 0 then s.eps[best].ep else nobody;
    Switch(from.name, to.name, from.Label(), to.Label(), from.cluster, to.cluster,
           from.clusterLabel, to.clusterLabel, best < 0)
  }

  function Reselect(s: State, now: int, holdDown: int): (o: Outcome)
    requires s.WellFormed()
    ensures o.state.WellFormed() && o.state.eps == s.eps
  {
    var best := Choice(s, now, holdDown);
    if best == s.active then Outcome(s, None)
    else Outcome(s.(active := best, allDown := best < 0), Some(SwitchTo(s, best)))
  }

  function Apply(s: State, c: Commit, holdDown: int): (o: Outcome)
    requires s.WellFormed() && Fits(c, |s.eps|)
    ensures o.state.WellFormed() && |o.state.eps| == |s.eps|
  {
    Reselect(Update(s, c), c.now, holdDown)
  }

  // ----- The rule the scan implements -----

  /** `b` is the most preferred selectable endpoint, or -1 when there is none. */
  predicate MostPreferred(s: State, b: int) {
    && -1 <= b < |s.eps|
    && (b >= 0 ==> s.eps[b].Selectable())
    && (forall j :: 0 <= j < (if b >= 0 then b else |s.eps|) ==> !s.eps[j].Selectable())
  }

  /** Endpoint `i` is preferred to the active one and has cleared hold-down. */
  predicate Recovered(s: State, now: int, holdDown: int, i: int) {
    0 <= i < s.active && i < |s.eps| && s.eps[i].Selectable() && now - s.eps[i].upSince >= holdDown
  }

  /** Fail over fast, fail back slow. */
  predicate Rule(s: State, now: int, holdDown: int, b: int) {
    if s.ActiveHealthy() then
      && (b == s.active || Recovered(s, now, holdDown, b))
      && (forall j :: 0 <= j < b ==> !Recovered(s, now, holdDown, j))
    else
      MostPreferred(s, b)
  }

  /** The scan with early exits returns the one index the rule allows. */
  lemma ChoiceIsTheRule(s: State, now: int, holdDown: int, b: int)
    requires s.WellFormed()
    ensures Rule(s, now, holdDown, b) <==> b == Choice(s, now, holdDown)
  {
    var c := Choice(s, now, holdDown);
    assert s.ActiveHealthy() ==> Stops(s, now, holdDown, s.active);
    assert forall j :: 0 <= j < s.active && s.ActiveHealthy() ==>
                         (Stops(s, now, holdDown, j) <==> Recovered(s, now, holdDown, j));
    assert forall j :: 0 <= j < |s.eps| && !s.ActiveHealthy() ==>
                         (Stops(s, now, holdDown, j) <==> s.eps[j].Selectable());
  }

  /** Reselecting again at the same clock moves nothing and announces nothing. */
  lemma ReselectIsIdempotent(s: State, now: int, holdDown: int)
    requires s.WellFormed()
    ensures var o := Reselect(s, now, holdDown);
            Reselect(o.state, now, holdDown).switch == None
            && Reselect(o.state, now, holdDown).state == o.state
  {
    var o := Reselect(s, now, holdDown);
    ChoiceIsTheRule(s, now, holdDown, o.state.active);
    assert forall j :: Recovered(o.state, now, holdDown, j) ==> Recovered(s, now, holdDown, j) || !s.ActiveHealthy();
    ChoiceIsTheRule(o.state, now, holdDown, o.state.active);
  }

  /** A state no reselection would leave unsettled. */
  predicate Consistent(s: State) {
    && s.WellFormed()
    && (s.allDown <==> s.active == -1)
    && (s.active >= 0 ==> s.eps[s.active].Selectable())
    && (s.active < 0 ==> forall i :: 0 <= i < |s.eps| ==> !s.eps[i].Selectable())
  }

  /** Every critical section ends consistent, whatever it wrote before it reselected. */
  lemma ApplyIsConsistent(s: State, c: Commit, holdDown: int)
    requires s.WellFormed() && Fits(c, |s.eps|) && (s.allDown <==> s.active == -1)
    ensures Consistent(Apply(s, c, holdDown).state)
  {
    var u := Update(s, c);
    ChoiceIsTheRule(u, c.now, holdDown, Choice(u, c.now, holdDown));
  }
}
