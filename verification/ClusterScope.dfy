/**
 What the cluster filter is for: selection never leaves the chosen cluster, health goes on
 being tracked everywhere, and a filtered Supervisor behaves as if the other clusters had
 never been configured.
 */
module ClusterScope {
  import opened Wrappers
  import opened Transport
  import opened Supervision
  import opened Runs

  // ----- Confinement -----

  /** Under a filter the active endpoint, and the target of the last switch, belong to its cluster. */
  lemma Confined(r: Run, k: nat)
    requires r.WellFormed() && k <= |r.commits| && r.FilterAt(k) != ""
    ensures match r.At(k).ActiveEndpoint() case None => true case Some(ep) => ep.cluster == r.FilterAt(k)
    ensures k > 0 && r.SwitchAt(k - 1).Some? ==>
              var sw := r.SwitchAt(k - 1).value;
              if sw.allDown then sw.toName == "" && r.At(k).ActiveEndpoint() == None
              else sw.toCluster == r.FilterAt(k) && r.At(k).ActiveEndpoint().Some?
                   && sw.toName == r.At(k).ActiveEndpoint().value.name
  {
    hide Choice, Update, Run.FilterAt;
    ConsistentAt(r, k);
    if r.At(k).active >= 0 {
      DisabledIsFilter(r, k, r.At(k).active);
    }
    if k > 0 && r.SwitchAt(k - 1).Some? {
      assert r.At(k).active == Choice(r.Seen(k - 1), r.commits[k - 1].now, r.holdDown);
    }
  }

  lemma {:induction false} FilterStands(r: Run, p: nat, k: nat)
    requires r.WellFormed() && p < k <= |r.commits| && r.commits[p].Filter?
    requires forall m :: p < m < k ==> r.commits[m].Round?
    ensures r.FilterAt(k) == r.commits[p].cluster
  {
    if p + 1 < k {
      FilterStands(r, p, k - 1);
    }
  }

  /** From a filter call for `c` until the next one, whatever rounds see, nothing outside `c` is chosen. */
  lemma ConfinedUntilNextFilter(r: Run, p: nat, k: nat)
    requires r.WellFormed() && p < k <= |r.commits| && r.commits[p].Filter? && r.commits[p].cluster != ""
    requires forall m :: p < m < k ==> r.commits[m].Round?
    ensures match r.At(k).ActiveEndpoint() case None => true case Some(ep) => ep.cluster == r.commits[p].cluster
    ensures r.SwitchAt(k - 1).Some? && !r.SwitchAt(k - 1).value.allDown ==>
              r.SwitchAt(k - 1).value.toCluster == r.commits[p].cluster
  {
    hide Run.At, Run.SwitchAt, Run.FilterAt;
    FilterStands(r, p, k);
    Confined(r, k);
  }

  // ----- Health is tracked as if there were no filter -----

  function RoundsOf(cs: seq<Commit>): seq<Commit> {
    if cs == [] then []
    else
      var last := |cs| - 1;
      RoundsOf(cs[..last]) + (if cs[last].Round? then [cs[last]] else [])
  }

  /** The endpoint records without their enabled flag. */
  function HealthView(s: State): seq<EpState> {
    seq(|s.eps|, i requires 0 <= i < |s.eps| => s.eps[i].(disabled := false))
  }

  lemma {:induction false} RoundsFit(cs: seq<Commit>, n: nat)
    requires forall k :: 0 <= k < |cs| ==> Fits(cs[k], n)
    ensures forall k :: 0 <= k < |RoundsOf(cs)| ==> Fits(RoundsOf(cs)[k], n) && RoundsOf(cs)[k].Round?
  {
    if cs != [] {
      RoundsFit(cs[..|cs| - 1], n);
    }
  }

  /** Health, streak clocks and identities are those of the run with every filter call erased. */
  lemma {:induction false} FiltersDoNotTouchHealth(r: Run)
    requires r.WellFormed()
    ensures var bare := r.(commits := RoundsOf(r.commits));
            && bare.WellFormed()
            && HealthView(r.At(|r.commits|)) == HealthView(bare.At(|bare.commits|))
    decreases |r.commits|
  {
    hide Choice, Apply, Update, HealthView, Run.At, Fits;
    RoundsFit(r.commits, |r.endpoints|);
    if r.commits != [] {
      var last := |r.commits| - 1;
      var c := r.commits[last];
      var before := r.(commits := r.commits[..last]);
      FiltersDoNotTouchHealth(before);
      assert before.commits + [c] == r.commits;
      AppendExtends(before, c);
      var bare := before.(commits := RoundsOf(before.commits));
      var s, t := before.At(last), bare.At(|bare.commits|);
      ApplyKeepsHealth(s, c, r.holdDown);
      if c.Round? {
        AppendExtends(bare, c);
        SameObservation(s, t, c);
        ApplyKeepsHealth(t, c, r.holdDown);
        assert RoundsOf(r.commits) == bare.commits + [c];
      } else {
        assert RoundsOf(r.commits) == bare.commits;
      }
    } else {
      assert RoundsOf(r.commits) == r.commits;
    }
  }

  lemma ApplyKeepsHealth(s: State, c: Commit, holdDown: int)
    requires s.WellFormed() && Fits(c, |s.eps|)
    ensures HealthView(Apply(s, c, holdDown).state) == HealthView(Update(s, c))
    ensures c.Filter? ==> HealthView(Update(s, c)) == HealthView(s)
  {
    hide Choice;
    assert Apply(s, c, holdDown).state.eps == Update(s, c).eps;
    if c.Filter? {
      assert HealthView(Update(s, c)) == HealthView(s);
    }
  }

  lemma SameObservation(s: State, t: State, c: Commit)
    requires HealthView(s) == HealthView(t) && c.Round? && Fits(c, |s.eps|)
    ensures |s.eps| == |t.eps| && HealthView(Update(s, c)) == HealthView(Update(t, c))
  {
    assert |HealthView(s)| == |HealthView(t)|;
    forall i | 0 <= i < |s.eps|
      ensures HealthView(Update(s, c))[i] == HealthView(Update(t, c))[i]
    {
      assert HealthView(s)[i] == HealthView(t)[i];
    }
  }

  // ----- Projection -----

  /** Where the members of cluster `c` sit in the priority order. */
  function Members(endpoints: seq<Endpoint>, c: string): (idx: seq<nat>)
    ensures forall j :: 0 <= j < |idx| ==> idx[j] < |endpoints| && endpoints[idx[j]].cluster == c
    ensures forall j, k :: 0 <= j < k < |idx| ==> idx[j] < idx[k]
    ensures forall i: nat :: i < |endpoints| && endpoints[i].cluster == c ==> i in idx
  {
    if endpoints == [] then []
    else
      var last := |endpoints| - 1;
      var before := Members(endpoints[..last], c);
      assert forall i: nat :: i < last && endpoints[i].cluster == c ==> endpoints[..last][i].cluster == c;
      if endpoints[last].cluster == c then before + [last] else before
  }

  function Pick<T>(xs: seq<T>, idx: seq<nat>): seq<T>
    requires forall j :: 0 <= j < |idx| ==> idx[j] < |xs|
  {
    seq(|idx|, j requires 0 <= j < |idx| => xs[idx[j]])
  }

  /** A later call: any round, or the same filter again. */
  predicate Keeps(c: Commit, cluster: string) {
    c.Filter? ==> c.cluster == cluster
  }

  /** The same commit as the smaller Supervisor would see it. */
  function Shrink(c: Commit, idx: seq<nat>): Commit
    requires c.Round? ==> forall j :: 0 <= j < |idx| ==> idx[j] < |c.oks|
  {
    if c.Round? then Round(c.now, Pick(c.oks, idx)) else c
  }

  /** `b` runs filtered on `cluster`; `s` was built from that cluster's endpoints alone. */
  predicate Mirrors(b: State, s: State, idx: seq<nat>, cluster: string) {
    && b.WellFormed() && s.WellFormed() && |s.eps| == |idx|
    && (forall j :: 0 <= j < |idx| ==> idx[j] < |b.eps| && s.eps[j] == b.eps[idx[j]] && !s.eps[j].disabled)
    && (forall j, k :: 0 <= j < k < |idx| ==> idx[j] < idx[k])
    && (forall i: nat :: i < |b.eps| ==> (i in idx <==> b.eps[i].ep.cluster == cluster))
    && (forall i: nat :: i < |b.eps| ==> b.eps[i].disabled == OutsideFilter(b.eps[i].ep, cluster))
    && b.allDown == s.allDown
    && b.active == (if s.active < 0 then -1 else idx[s.active])
  }

  lemma MirroredUpdate(b: State, s: State, idx: seq<nat>, cluster: string, c: Commit)
    requires Mirrors(b, s, idx, cluster) && Fits(c, |b.eps|) && Keeps(c, cluster)
    ensures Mirrors(Update(b, c), Update(s, Shrink(c, idx)), idx, cluster)
  {
    var b', s' := Update(b, c), Update(s, Shrink(c, idx));
    forall j | 0 <= j < |idx| ensures s'.eps[j] == b'.eps[idx[j]] && !s'.eps[j].disabled {
      assert idx[j] in idx;
      assert b.eps[idx[j]].ep.cluster == cluster;
    }
  }

  lemma MirroredStop(b: State, s: State, idx: seq<nat>, cluster: string, now: int, holdDown: int, j: nat)
    requires Mirrors(b, s, idx, cluster) && j < |idx|
    ensures Stops(s, now, holdDown, j) <==> Stops(b, now, holdDown, idx[j])
  {
    if s.active >= 0 {
      assert j == s.active <==> idx[j] == b.active;
      assert j < s.active <==> idx[j] < b.active;
    }
  }

  lemma MirroredReselect(b: State, s: State, idx: seq<nat>, cluster: string, now: int, holdDown: int)
    requires Mirrors(b, s, idx, cluster) && cluster != ""
    ensures var ob, os := Reselect(b, now, holdDown), Reselect(s, now, holdDown);
            Mirrors(ob.state, os.state, idx, cluster) && ob.switch == os.switch
  {
    var x, y := Choice(b, now, holdDown), Choice(s, now, holdDown);
    if y >= 0 {
      MirroredStop(b, s, idx, cluster, now, holdDown, y);
    }
    if x >= 0 {
      assert !b.eps[x].disabled;
      assert x in idx;
      var j :| 0 <= j < |idx| && idx[j] == x;
      MirroredStop(b, s, idx, cluster, now, holdDown, j);
    }
    assert x == if y < 0 then -1 else idx[y];
  }

  lemma MirroredApply(b: State, s: State, idx: seq<nat>, cluster: string, c: Commit, holdDown: int)
    requires Mirrors(b, s, idx, cluster) && Fits(c, |b.eps|) && Keeps(c, cluster) && cluster != ""
    ensures var ob, os := Apply(b, c, holdDown), Apply(s, Shrink(c, idx), holdDown);
            Mirrors(ob.state, os.state, idx, cluster) && ob.switch == os.switch
  {
    hide Mirrors, Update, Reselect, Choice;
    MirroredUpdate(b, s, idx, cluster, c);
    MirroredReselect(Update(b, c), Update(s, Shrink(c, idx)), idx, cluster, c.now, holdDown);
  }

  lemma MirrorsShow(b: State, s: State, idx: seq<nat>, cluster: string)
    requires Mirrors(b, s, idx, cluster)
    ensures b.ActiveEndpoint() == s.ActiveEndpoint()
  {
  }

  /** The Supervisor of one cluster: its endpoints in the same order, and the commits after the filter call. */
  ghost function Projection(r: Run, cluster: string): (p: Run)
    requires r.WellFormed() && |r.commits| > 0
    ensures p.WellFormed() && p.holdDown == r.holdDown && |p.commits| == |r.commits| - 1
    ensures p.endpoints == Pick(r.endpoints, Members(r.endpoints, cluster))
  {
    var idx := Members(r.endpoints, cluster);
    Run(Pick(r.endpoints, idx), r.holdDown,
        seq(|r.commits| - 1, k requires 0 <= k < |r.commits| - 1 =>
          assert Fits(r.commits[k + 1], |r.endpoints|);
          Shrink(r.commits[k + 1], idx)))
  }

  /** Commit `k` of a run is commit `k - 1` of its projection. */
  lemma ProjectionCommit(r: Run, cluster: string, k: nat)
    requires r.WellFormed() && 0 < k < |r.commits|
    ensures var p := Projection(r, cluster);
            && Fits(r.commits[k], |r.endpoints|)
            && p.commits[k - 1] == Shrink(r.commits[k], Members(r.endpoints, cluster))
  {
  }

  lemma InitialIsSettled(endpoints: seq<Endpoint>, now: int, holdDown: int)
    ensures Reselect(Initial(endpoints), now, holdDown) == Outcome(Initial(endpoints), None)
  {
  }

  lemma MirroredStart(endpoints: seq<Endpoint>, cluster: string, c: Commit)
    requires c.Filter? && c.cluster == cluster
    ensures var idx := Members(endpoints, cluster);
            Mirrors(Update(Initial(endpoints), c), Initial(Pick(endpoints, idx)), idx, cluster)
  {
  }

  lemma ProjectionStarts(r: Run, cluster: string)
    requires r.WellFormed() && |r.commits| > 0 && cluster != ""
    requires r.commits[0].Filter? && r.commits[0].cluster == cluster
    ensures var p := Projection(r, cluster);
            && Mirrors(r.At(1), p.At(0), Members(r.endpoints, cluster), cluster)
            && r.Log(1) == p.Log(0)
  {
    hide Mirrors, Update, Initial, Reselect, Members, Pick, Run.Log, Run.At;
    var c := r.commits[0];
    var idx := Members(r.endpoints, cluster);
    var b, s := Update(Initial(r.endpoints), c), Initial(Pick(r.endpoints, idx));
    MirroredStart(r.endpoints, cluster, c);
    MirroredReselect(b, s, idx, cluster, c.now, r.holdDown);
    InitialIsSettled(Pick(r.endpoints, idx), c.now, r.holdDown);
    FirstCommit(r);
    FirstCommit(Projection(r, cluster));
  }

  lemma FirstCommit(r: Run)
    requires r.WellFormed()
    ensures r.At(0) == Initial(r.endpoints) && r.Log(0) == []
    ensures |r.commits| > 0 ==>
              var o := Reselect(Update(Initial(r.endpoints), r.commits[0]), r.commits[0].now, r.holdDown);
              r.At(1) == o.state && (o.switch == None ==> r.Log(1) == [])
  {
    hide Reselect;
  }

  lemma ProjectionStep(r: Run, cluster: string, k: nat)
    requires r.WellFormed() && 0 < k < |r.commits| && cluster != "" && Keeps(r.commits[k], cluster)
    requires var p := Projection(r, cluster);
             && Mirrors(r.At(k), p.At(k - 1), Members(r.endpoints, cluster), cluster)
             && r.Log(k) == p.Log(k - 1)
    ensures var p := Projection(r, cluster);
            && Mirrors(r.At(k + 1), p.At(k), Members(r.endpoints, cluster), cluster)
            && r.Log(k + 1) == p.Log(k)
  {
    hide Mirrors, Apply, Members, Pick, Shrink, Fits, Projection;
    var p := Projection(r, cluster);
    ProjectionCommit(r, cluster, k);
    MirroredApply(r.At(k), p.At(k - 1), Members(r.endpoints, cluster), cluster, r.commits[k], r.holdDown);
  }

  /**
   After `New` and a first filter call for a cluster, every later run of rounds and repeated
   calls for it selects the same endpoint and announces the same switches, commit by commit,
   as a Supervisor built from that cluster's endpoints alone.
   */
  lemma {:induction false} FilterIsProjection(r: Run, cluster: string, k: nat)
    requires r.WellFormed() && 0 < k <= |r.commits| && cluster != ""
    requires r.commits[0].Filter? && forall m :: 0 <= m < |r.commits| ==> Keeps(r.commits[m], cluster)
    ensures var p := Projection(r, cluster);
            && r.At(k).ActiveEndpoint() == p.At(k - 1).ActiveEndpoint()
            && r.Log(k) == p.Log(k - 1)
            && Mirrors(r.At(k), p.At(k - 1), Members(r.endpoints, cluster), cluster)
  {
    hide Mirrors, Run.At, Run.Log, Members;
    if k == 1 {
      ProjectionStarts(r, cluster);
    } else {
      FilterIsProjection(r, cluster, k - 1);
      ProjectionStep(r, cluster, k - 1);
    }
    MirrorsShow(r.At(k), Projection(r, cluster).At(k - 1), Members(r.endpoints, cluster), cluster);
  }
}
