/**
 The Supervisor as the object the program keeps: endpoint records updated in place under
 one lock. Each method is one critical section; a ghost history ties the object to the
 run it has been through, so every theorem about runs is a theorem about the object.
 */
module SupervisorObject {
  import opened Wrappers
  import opened Transport
  import opened Supervision
  import opened Runs

  datatype EndpointStatus = EndpointStatus(
    name: string, displayName: string, cluster: string, clusterLabel: string,
    target: BackendId, health: Health, active: bool)
  {
    function Label(): string {
      if displayName != "" then displayName else name
    }

    function ClusterLabelOrName(): string {
      if clusterLabel != "" then clusterLabel else cluster
    }

    function FullLabel(): string {
      Compose(ClusterLabelOrName(), Label())
    }
  }

  function ClusterColumn(endpoints: seq<EpState>): seq<string> {
    seq(|endpoints|, i requires 0 <= i < |endpoints| => endpoints[i].ep.cluster)
  }

  /** Some occurrence of `a` has no `b` before it. */
  ghost predicate SeenBefore(column: seq<string>, a: string, b: string) {
    exists h :: 0 <= h < |column| && column[h] == a && b !in column[..h]
  }

  /** The distinct non-empty names of a column, in the order they are first seen. */
  ghost predicate FirstSeen(column: seq<string>, names: seq<string>) {
    && (forall j, k :: 0 <= j < k < |names| ==> names[j] != names[k] && SeenBefore(column, names[j], names[k]))
    && (forall c :: c in names <==> c != "" && c in column)
  }

  lemma SeenBeforeExtends(column: seq<string>, c: string, a: string, b: string)
    requires SeenBefore(column, a, b)
    ensures SeenBefore(column + [c], a, b)
  {
    var h :| 0 <= h < |column| && column[h] == a && b !in column[..h];
    assert (column + [c])[..h] == column[..h];
    assert (column + [c])[h] == a;
  }

  lemma FirstSeenExtends(column: seq<string>, names: seq<string>, c: string)
    requires FirstSeen(column, names)
    ensures FirstSeen(column + [c], if c != "" && c !in names then names + [c] else names)
  {
    var names' := if c != "" && c !in names then names + [c] else names;
    forall j, k | 0 <= j < k < |names'|
      ensures names'[j] != names'[k] && SeenBefore(column + [c], names'[j], names'[k])
    {
      assert names'[j] == names[j] && names[j] in names;
      if k < |names| {
        SeenBeforeExtends(column, c, names[j], names[k]);
      } else {
        var h :| 0 <= h < |column| && column[h] == names[j];
        assert c !in column[..h];
        assert SeenBefore(column, names[j], c);
        SeenBeforeExtends(column, c, names[j], c);
      }
    }
  }

  class Supervisor {
    const holdDown: int
    const eps: array<EpState>
    var active: int
    var allDown: bool

    ghost const endpoints: seq<Endpoint>
    ghost var commits: seq<Commit>
    ghost var log: seq<Switch>

    function View(): State
      reads this, eps
    {
      State(eps[..], active, allDown)
    }

    ghost function History(): Run
      reads this
    {
      Run(endpoints, holdDown, commits)
    }

    /** The fields are what the run of commits so far produces. */
    ghost predicate Valid()
      reads this, eps
    {
      && History().WellFormed()
      && View() == History().At(|commits|)
      && log == History().Log(|commits|)
    }

    constructor (endpoints: seq<Endpoint>, opts: Options)
      ensures Valid() && fresh(eps)
      ensures this.endpoints == endpoints && holdDown == opts.WithDefaults().holdDown
      ensures View() == Initial(endpoints) && commits == [] && log == []
    {
      holdDown := opts.WithDefaults().holdDown;
      eps := new EpState[|endpoints|];
      active := -1;
      allDown := true;
      this.endpoints := endpoints;
      commits := [];
      log := [];
      new;
      for i := 0 to |endpoints|
        modifies eps
        invariant forall j :: 0 <= j < i ==> eps[j] == Supervision.Fresh(endpoints[j])
      {
        eps[i] := EpState(endpoints[i], Unknown, false, ZERO_TIME, false);
      }
      assert View() == Initial(endpoints);
    }

    /** The selection scan. Holds the lock; called at the end of both critical sections. */
    method ReselectLocked(now: int) returns (sw: Option<Switch>)
      requires View().WellFormed()
      modifies this`active, this`allDown
      ensures Outcome(View(), sw) == Reselect(old(View()), now, holdDown)
    {
      var prev := active;
      var activeHealthy := prev >= 0 && eps[prev].healthy && !eps[prev].disabled;
      ghost var s := View();
      var best := -1;
      for i := 0 to eps.Length
        invariant best == -1
        invariant Choice(s, now, holdDown) == ScanFrom(s, now, holdDown, i)
      {
        var e := eps[i];
        if e.disabled {
          continue;
        }
        if !e.healthy {
          continue;
        }
        if !activeHealthy {
          best := i;
          break;
        }
        if i == prev {
          best := i;
          break;
        }
        if i < prev && now - e.upSince >= holdDown {
          best := i;
          break;
        }
      }
      assert best == Choice(s, now, holdDown);
      if best == prev {
        return None;
      }
      var from := if prev >= 0 then eps[prev].ep else Endpoint("", "", "", "", 0);
      active := best;
      if best < 0 {
        allDown := true;
        return Some(Switch(from.name, "", from.Label(), "", from.cluster, "", from.clusterLabel, "", true));
      }
      allDown := false;
      var ep := eps[best].ep;
      return Some(Switch(from.name, ep.name, from.Label(), ep.Label(), from.cluster, ep.cluster,
                         from.clusterLabel, ep.clusterLabel, false));
    }

    /** The probe results of a round, written into the endpoint records. */
    method RecordResults(now: int, results: seq<bool>)
      requires |results| == eps.Length
      modifies eps
      ensures View() == Update(old(View()), Round(now, results))
    {
      for i := 0 to eps.Length
        invariant forall j :: 0 <= j < i ==> eps[j] == Observe(old(eps[j]), results[j], now)
        invariant forall j :: i <= j < eps.Length ==> eps[j] == old(eps[j])
      {
        var e := eps[i];
        if results[i] {
          if !e.healthy {
            e := e.(upSince := now);
          }
          e := e.(healthy := true, health := Up);
        } else {
          e := e.(healthy := false, health := Down, upSince := ZERO_TIME);
        }
        eps[i] := e;
      }
      assert eps[..] == Update(old(View()), Round(now, results)).eps;
    }

    /** The enabled flags of a filter call, written into the endpoint records. */
    method RecordFilter(cluster: string, now: int)
      modifies eps
      ensures View() == Update(old(View()), Filter(cluster, now))
    {
      for i := 0 to eps.Length
        invariant forall j :: 0 <= j < i ==> eps[j] == old(eps[j]).(disabled := OutsideFilter(old(eps[j]).ep, cluster))
        invariant forall j :: i <= j < eps.Length ==> eps[j] == old(eps[j])
      {
        eps[i] := eps[i].(disabled := cluster != "" && eps[i].ep.cluster != cluster);
      }
      assert eps[..] == Update(old(View()), Filter(cluster, now)).eps;
    }

    /** The critical section of a probe round: `now` was read before the probes ran. */
    method CommitRound(now: int, results: seq<bool>) returns (sw: Option<Switch>)
      requires Valid() && |results| == eps.Length
      modifies this, eps
      ensures Valid() && commits == old(commits) + [Round(now, results)]
      ensures Outcome(View(), sw) == Apply(old(View()), Round(now, results), holdDown)
      ensures log == old(log) + (if sw.Some? then [sw.value] else [])
    {
      ghost var c := Round(now, results);
      RecordResults(now, results);
      sw := ReselectLocked(now);
      AppendExtends(History(), c);
      commits := commits + [c];
      log := log + (if sw.Some? then [sw.value] else []);
    }

    /** The critical section of a filter call: `now` is read inside it. */
    method SetClusterFilter(cluster: string, now: int) returns (sw: Option<Switch>)
      requires Valid()
      modifies this, eps
      ensures Valid() && commits == old(commits) + [Filter(cluster, now)]
      ensures Outcome(View(), sw) == Apply(old(View()), Filter(cluster, now), holdDown)
      ensures log == old(log) + (if sw.Some? then [sw.value] else [])
    {
      ghost var c := Filter(cluster, now);
      RecordFilter(cluster, now);
      sw := ReselectLocked(now);
      AppendExtends(History(), c);
      commits := commits + [c];
      log := log + (if sw.Some? then [sw.value] else []);
    }

    /** The endpoint the Gateway dials; none when everything is down. */
    method Active() returns (ep: Option<Endpoint>)
      requires Valid()
      ensures ep == View().ActiveEndpoint()
      ensures ep == None <==> forall i :: 0 <= i < eps.Length ==> !eps[i].Selectable()
    {
      ActiveIsSelectable();
      if active < 0 {
        return None;
      }
      return Some(eps[active].ep);
    }

    lemma ActiveIsSelectable()
      requires Valid()
      ensures Consistent(View())
    {
      ConsistentAt(History(), |commits|);
    }

    method Clusters() returns (names: seq<string>)
      ensures FirstSeen(ClusterColumn(eps[..]), names)
    {
      var seen: set<string> := {};
      names := [];
      for i := 0 to eps.Length
        invariant seen == set c | c in names
        invariant FirstSeen(ClusterColumn(eps[..i]), names)
      {
        var c := eps[i].ep.cluster;
        FirstSeenExtends(ClusterColumn(eps[..i]), names, c);
        assert ClusterColumn(eps[..i + 1]) == ClusterColumn(eps[..i]) + [c];
        if c != "" && c !in seen {
          seen := seen + {c};
          names := names + [c];
        }
      }
      assert eps[..eps.Length] == eps[..];
    }

    /** One status per endpoint, in priority order; exactly the active one is marked. */
    method Snapshot() returns (out: seq<EndpointStatus>)
      requires View().WellFormed()
      ensures |out| == eps.Length
      ensures forall i :: 0 <= i < |out| ==>
                && out[i].name == eps[i].ep.name && out[i].cluster == eps[i].ep.cluster
                && out[i].displayName == eps[i].ep.displayName && out[i].clusterLabel == eps[i].ep.clusterLabel
                && out[i].health == eps[i].health
                && out[i].FullLabel() == eps[i].ep.FullLabel()
                && out[i].target == eps[i].ep.backend
                && (out[i].active <==> View().active == i)
      ensures View().active == -1 <==> forall i :: 0 <= i < |out| ==> !out[i].active
    {
      out := [];
      for i := 0 to eps.Length
        invariant |out| == i
        invariant forall j :: 0 <= j < i ==>
                    out[j] == EndpointStatus(eps[j].ep.name, eps[j].ep.displayName, eps[j].ep.cluster,
                                             eps[j].ep.clusterLabel, eps[j].ep.backend, eps[j].health, j == active)
      {
        var e := eps[i];
        out := out + [EndpointStatus(e.ep.name, e.ep.displayName, e.ep.cluster, e.ep.clusterLabel,
                                     e.ep.backend, e.health, i == active)];
      }
      if active >= 0 {
        assert out[active].active;
      }
    }
  }
}
