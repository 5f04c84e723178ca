/**
 "Fail over fast, fail back slow", as properties of whole runs: fail-backs are earned by
 an observed streak, they are spaced, they are few, and a steady world converges.
 */
module Hysteresis {
  import opened Wrappers
  import opened Transport
  import opened Supervision
  import opened Runs

  // ----- Fail-over is immediate -----

  /** The most preferred endpoint that passes its probe and is inside the filter, or -1. */
  predicate Target(endpoints: seq<Endpoint>, oks: seq<bool>, cluster: string, t: int)
    requires |oks| == |endpoints|
  {
    && -1 <= t < |endpoints|
    && (t >= 0 ==> oks[t] && !OutsideFilter(endpoints[t], cluster))
    && (forall j :: 0 <= j < (if t >= 0 then t else |endpoints|) ==> !(oks[j] && !OutsideFilter(endpoints[j], cluster)))
  }

  /** There is always exactly one such endpoint, or none at all. */
  lemma TargetExists(endpoints: seq<Endpoint>, oks: seq<bool>, cluster: string) returns (t: int)
    requires |oks| == |endpoints|
    ensures Target(endpoints, oks, cluster, t)
    ensures forall u :: Target(endpoints, oks, cluster, u) ==> u == t
  {
    t := 0;
    while t < |endpoints| && !(oks[t] && !OutsideFilter(endpoints[t], cluster))
      invariant 0 <= t <= |endpoints|
      invariant forall j :: 0 <= j < t ==> !(oks[j] && !OutsideFilter(endpoints[j], cluster))
    {
      t := t + 1;
    }
    if t == |endpoints| {
      t := -1;
    }
  }

  /** What the last committed round found; before any round, nothing answers. */
  ghost function LastResults(r: Run, k: nat): (oks: seq<bool>)
    requires r.WellFormed() && k <= |r.commits|
    ensures |oks| == |r.endpoints|
  {
    if k == 0 then seq(|r.endpoints|, i => false)
    else if r.commits[k - 1].Round? then r.commits[k - 1].oks
    else LastResults(r, k - 1)
  }

  lemma {:induction false} HealthIsLastRound(r: Run, k: nat, i: nat)
    requires r.WellFormed() && k <= |r.commits| && i < |r.endpoints|
    ensures r.At(k).eps[i].healthy == LastResults(r, k)[i]
  {
    hide Run.At;
    if k > 0 {
      HealthIsLastRound(r, k - 1, i);
      SeenRecord(r, k - 1, i);
    } else {
      FirstRecord(r, i);
    }
  }

  /**
   A commit that finds the active endpoint failed, disabled or absent moves at once to the
   most preferred endpoint inside the filter that answered the last committed round, or to
   none: no hold-down, no earlier history.
   */
  lemma FailOverIsImmediate(r: Run, k: nat)
    requires r.WellFormed() && k < |r.commits| && !r.Seen(k).ActiveHealthy()
    ensures Target(r.endpoints, LastResults(r, k + 1), r.FilterAt(k + 1), r.At(k + 1).active)
  {
    hide Run.At, Run.Seen, Run.FilterAt, LastResults, Choice;
    var s := r.Seen(k);
    SeenStays(r, k);
    forall i: nat | i < |r.endpoints|
      ensures s.eps[i].Selectable() <==> LastResults(r, k + 1)[i] && !OutsideFilter(r.endpoints[i], r.FilterAt(k + 1))
    {
      HealthIsLastRound(r, k + 1, i);
      DisabledIsFilter(r, k + 1, i);
    }
    ChoiceIsTheRule(s, r.commits[k].now, r.holdDown, r.At(k + 1).active);
  }

  // ----- Fail-backs are earned -----

  /** In the eyes of the committed rounds, `i` has been up for the hold-down at commit `k`. */
  ghost predicate Earned(r: Run, k: nat, i: nat)
    requires r.WellFormed() && k < |r.commits| && i < |r.endpoints|
  {
    exists from :: r.PassedSince(from, k + 1, i) && r.commits[from].now <= r.commits[k].now - r.holdDown
  }

  /** `i` is inside the filter commit `k` leaves in force, and has earned its place. */
  ghost predicate Deserves(r: Run, k: nat, i: nat)
    requires r.WellFormed() && k < |r.commits| && i < |r.endpoints|
  {
    !OutsideFilter(r.endpoints[i], r.FilterAt(k + 1)) && Earned(r, k, i)
  }

  /** The hold-down clock, read at commit `k`, measures exactly the observed streak. */
  lemma ClockMeasuresStreak(r: Run, k: nat, i: nat)
    requires r.WellFormed() && WellTimed(r.commits) && k < |r.commits| && i < |r.endpoints|
    ensures var e := r.At(k + 1).eps[i];
            e.healthy && r.commits[k].now - e.upSince >= r.holdDown <==> Earned(r, k, i)
  {
    hide Run.At, Run.StreakStart;
    HealthIsHistory(r, k + 1, i);
    var st := r.StreakStart(k + 1, i);
    if Earned(r, k, i) {
      var from :| r.PassedSince(from, k + 1, i) && r.commits[from].now <= r.commits[k].now - r.holdDown;
      RoundClocks(r, st, from);
    }
  }

  /** What commit `k` sees of an endpoint is what the history up to and including it says. */
  lemma SeenIsHistory(r: Run, k: nat, i: nat)
    requires r.WellFormed() && WellTimed(r.commits) && k < |r.commits| && i < |r.endpoints|
    ensures var e := r.Seen(k).eps[i];
            && (e.healthy && r.commits[k].now - e.upSince >= r.holdDown <==> Earned(r, k, i))
            && (e.disabled == OutsideFilter(r.endpoints[i], r.FilterAt(k + 1)))
  {
    hide Run.At, Run.Seen, Earned, Run.FilterAt;
    SeenStays(r, k);
    ClockMeasuresStreak(r, k, i);
    DisabledIsFilter(r, k + 1, i);
  }

  /**
   While the active endpoint works, commit `k` moves the choice to `b` exactly when `b` is
   the most preferred enabled endpoint above the active one that passed some committed
   round begun at least HoldDown ago and every committed round since. Rounds committed
   with a stale clock are included.
   */
  lemma FailBackIsEarned(r: Run, k: nat, b: nat)
    requires r.WellFormed() && WellTimed(r.commits) && k < |r.commits|
    requires r.Seen(k).ActiveHealthy()
    ensures (r.FailBack(k) && r.At(k + 1).active == b) <==>
            (&& b < r.At(k).active && Deserves(r, k, b)
             && forall j: nat :: j < b ==> !Deserves(r, k, j))
  {
    hide Run.At, Run.Seen, Run.FilterAt, Earned, Choice;
    var s := r.Seen(k);
    var now := r.commits[k].now;
    SeenStays(r, k);
    forall i: nat | i < s.active
      ensures Recovered(s, now, r.holdDown, i) <==> Deserves(r, k, i)
    {
      SeenIsHistory(r, k, i);
    }
    ChoiceIsTheRule(s, now, r.holdDown, b);
    ChoiceIsTheRule(s, now, r.holdDown, r.At(k + 1).active);
  }

  // ----- No whipsaw -----

  /** Position in the preference order; nothing selected ranks below everything. */
  function Rank(s: State): nat
    requires s.WellFormed()
  {
    if s.active < 0 then |s.eps| else s.active
  }

  /** While the active endpoint works, the choice only ever improves. */
  lemma UnforcedNeverWorsens(r: Run, k: nat)
    requires r.WellFormed() && k < |r.commits| && r.Seen(k).ActiveHealthy()
    ensures 0 <= r.At(k + 1).active <= r.At(k).active
  {
    hide Run.At, Run.Seen, Choice;
    SeenStays(r, k);
    ChoiceIsTheRule(r.Seen(k), r.commits[k].now, r.holdDown, r.At(k + 1).active);
  }

  /** Over any stretch of a run in which the active endpoint never fails, its index never increases. */
  lemma {:induction false} NoWhipsaw(r: Run, p: nat, q: nat)
    requires r.WellFormed() && p <= q <= |r.commits|
    requires forall k :: p <= k < q ==> r.Seen(k).ActiveHealthy()
    ensures Rank(r.At(q)) <= Rank(r.At(p))
  {
    hide Run.At, Run.Seen;
    if p < q {
      NoWhipsaw(r, p, q - 1);
      UnforcedNeverWorsens(r, q - 1);
    }
  }

  /** A working choice that nobody above has earned stays, silently. */
  lemma UnearnedStays(r: Run, k: nat)
    requires r.WellFormed() && WellTimed(r.commits) && k < |r.commits| && r.Seen(k).ActiveHealthy()
    requires forall i: nat :: i < r.At(k).active ==> !Earned(r, k, i)
    ensures r.At(k + 1).active == r.At(k).active && r.SwitchAt(k) == None
  {
    hide Run.At, Run.Seen, Run.FilterAt, Earned, Apply;
    SeenStays(r, k);
    UnforcedNeverWorsens(r, k);
    FailBackIsEarned(r, k, r.At(k + 1).active);
  }

  /** With no more-preferred endpoint reaching a HoldDown-long streak, a working choice never changes. */
  lemma {:induction false} FlappingIsIgnored(r: Run, p: nat, q: nat)
    requires r.WellFormed() && WellTimed(r.commits) && p <= q <= |r.commits|
    requires forall k :: p <= k < q ==> r.Seen(k).ActiveHealthy()
    requires forall k, i: nat :: p <= k < q && i < r.At(p).active ==> !Earned(r, k, i)
    ensures r.At(q).active == r.At(p).active && r.Log(q) == r.Log(p)
  {
    hide Run.At, Run.Seen, Earned, Apply, Run.SwitchAt;
    if p < q {
      FlappingIsIgnored(r, p, q - 1);
      UnearnedStays(r, q - 1);
    }
  }

  ghost function FailBacks(r: Run, p: nat, q: nat): nat
    requires r.WellFormed() && p <= q <= |r.commits|
  {
    if p == q then 0 else FailBacks(r, p, q - 1) + if r.FailBack(q - 1) then 1 else 0
  }

  ghost function ForcedChanges(r: Run, p: nat, q: nat): nat
    requires r.WellFormed() && p <= q <= |r.commits|
  {
    if p == q then 0 else ForcedChanges(r, p, q - 1) + if r.ForcedChange(q - 1) then 1 else 0
  }

  /** How many fail-backs a state can still afford without being forced off its choice. */
  function Slack(s: State): int {
    if s.active < 0 then 0 else s.active
  }

  lemma SlackStep(r: Run, k: nat)
    requires r.WellFormed() && k < |r.commits|
    ensures r.FailBack(k) ==> Slack(r.At(k + 1)) + 1 <= Slack(r.At(k))
    ensures !r.FailBack(k) && !r.ForcedChange(k) ==> Slack(r.At(k + 1)) == Slack(r.At(k))
    ensures r.ForcedChange(k) ==> Slack(r.At(k + 1)) <= Slack(r.At(k)) + |r.endpoints| - 1
  {
    hide Run.At, Run.Seen;
    if r.Seen(k).ActiveHealthy() {
      UnforcedNeverWorsens(r, k);
    }
  }

  /** Each forced change pays for at most n - 1 fail-backs, and nothing else does. */
  lemma {:induction false} FailBackBudget(r: Run, p: nat, q: nat)
    requires r.WellFormed() && p <= q <= |r.commits|
    ensures FailBacks(r, p, q) + Slack(r.At(q)) <= Slack(r.At(p)) + (|r.endpoints| - 1) * ForcedChanges(r, p, q)
  {
    hide Run.At, Run.Seen, Slack;
    if p < q {
      FailBackBudget(r, p, q - 1);
      SlackStep(r, q - 1);
      var f := ForcedChanges(r, p, q - 1);
      assert ForcedChanges(r, p, q) == f || ForcedChanges(r, p, q) == f + 1;
      Distribute(|r.endpoints| - 1, f);
    }
  }

  lemma Distribute(n: int, f: int)
    ensures n * (f + 1) == n * f + n
  {
  }

  /** Over any run the fail-backs number at most (n - 1) times the forced changes. */
  lemma FailBacksAreFew(r: Run, k: nat)
    requires r.WellFormed() && k <= |r.commits|
    ensures FailBacks(r, 0, k) <= (|r.endpoints| - 1) * ForcedChanges(r, 0, k)
  {
    FailBackBudget(r, 0, k);
  }

  // ----- Spacing -----

  /** The filter in force takes `i` out of selection and leaves something less preferred in. */
  predicate PassedOver(s: State, i: nat)
    requires i < |s.eps|
  {
    s.eps[i].disabled && exists j :: i < j < |s.eps| && !s.eps[j].disabled
  }

  /** The choice passes below an `i` that no filter passes over only at a commit that finds `i` unhealthy. */
  lemma {:induction false} RiseFindsItDown(r: Run, p: nat, q: nat, i: nat) returns (m: nat)
    requires r.WellFormed() && p <= q <= |r.commits| && i < |r.endpoints|
    requires r.At(p).active <= i < r.At(q).active
    requires forall k :: p < k <= q ==> !PassedOver(r.At(k), i)
    ensures p <= m < q && !r.At(m + 1).eps[i].healthy
  {
    hide Run.At, Run.Seen, Choice, Update;
    if r.At(q - 1).active > i {
      m := RiseFindsItDown(r, p, q - 1, i);
    } else {
      m := q - 1;
      SeenStays(r, m);
      ChoiceIsTheRule(r.Seen(m), r.commits[m].now, r.holdDown, r.At(q).active);
    }
  }

  /**
   Once `i` has been active after commit `p`, any later fail-back to `i` comes at least
   HoldDown after `p`, provided no filter passed over `i` in between.
   */
  lemma FailBackSpacing(r: Run, p: nat, q: nat, i: nat)
    requires r.WellFormed() && WellTimed(r.commits) && p < q < |r.commits| && i < |r.endpoints|
    requires r.At(p + 1).active == i
    requires r.FailBack(q) && r.At(q + 1).active == i
    requires forall k :: p < k <= q ==> !PassedOver(r.At(k), i)
    ensures r.commits[q].now - r.commits[p].now >= r.holdDown
  {
    hide Run.At, Run.Seen, PassedOver;
    FailBackIsEarned(r, q, i);
    var m := RiseFindsItDown(r, p + 1, q, i);
    var failed := BrokenStreak(r, p + 1, m + 1, i);
    var st :| r.PassedSince(st, q + 1, i) && r.commits[st].now <= r.commits[q].now - r.holdDown;
    assert failed < st;
    assert ReadsAfter(r.commits, p, st);
  }

  /** Between a state that has `i` active and one that has it unhealthy, some round fails it. */
  lemma BrokenStreak(r: Run, p: nat, m: nat, i: nat) returns (failed: nat)
    requires r.WellFormed() && p <= m <= |r.commits| && i < |r.endpoints|
    requires r.At(p).active == i && !r.At(m).eps[i].healthy
    ensures p <= failed < m && r.commits[failed].Round? && !r.commits[failed].oks[i]
  {
    hide Run.At, Run.StreakStart;
    ConsistentAt(r, p);
    HealthIsHistory(r, p, i);
    HealthIsHistory(r, m, i);
    var up :| r.PassedSince(up, p, i);
    assert !r.PassedSince(up, m, i);
    failed :| up <= failed < m && r.commits[failed].Round? && !r.commits[failed].oks[i];
  }

  /** With no filter call strictly in between, two fail-backs to the same endpoint are HoldDown apart. */
  lemma FailBacksAreSpaced(r: Run, p: nat, q: nat)
    requires r.WellFormed() && WellTimed(r.commits) && p < q < |r.commits|
    requires r.FailBack(p) && r.FailBack(q) && r.At(p + 1).active == r.At(q + 1).active
    requires forall k :: p < k < q ==> r.commits[k].Round?
    ensures r.commits[q].now - r.commits[p].now >= r.holdDown
  {
    hide Run.At, Run.Seen;
    UnforcedNeverWorsens(r, p);
    var i := r.At(p + 1).active;
    forall k | p < k <= q ensures !r.At(k).eps[i].disabled {
      EnabledWhileFilterStands(r, p + 1, k, i);
    }
    FailBackSpacing(r, p, q, i);
  }

  /** An active endpoint is enabled, and stays so until a filter call. */
  lemma {:induction false} EnabledWhileFilterStands(r: Run, p: nat, q: nat, i: nat)
    requires r.WellFormed() && p <= q <= |r.commits| && i < |r.endpoints| && r.At(p).active == i
    requires forall k :: p <= k < q ==> r.commits[k].Round?
    ensures !r.At(q).eps[i].disabled
  {
    hide Run.At, Run.Seen, Choice;
    if p < q {
      EnabledWhileFilterStands(r, p, q - 1, i);
      SeenStays(r, q - 1);
    } else {
      ConsistentAt(r, p);
    }
  }

  // ----- Spacing under any filter calls -----

  /** A filter on the cluster of the less preferred `j` shuts out `i`. */
  predicate Rival(endpoints: seq<Endpoint>, i: nat, j: nat) {
    i < j < |endpoints| && endpoints[j].cluster != "" && endpoints[j].cluster != endpoints[i].cluster
  }

  /** Every fail-back of the run to `i` comes at least HoldDown after any earlier commit that left `i` active. */
  ghost predicate Spaced(r: Run, i: nat)
    requires r.WellFormed()
  {
    forall p: nat, q: nat :: p < q < |r.commits| && r.At(p + 1).active == i && r.FailBack(q) && r.At(q + 1).active == i
                             ==> r.commits[q].now - r.commits[p].now >= r.holdDown
  }

  /** Without a rival no filter passes over `i`. */
  lemma UnrivalledIsNotPassedOver(r: Run, k: nat, i: nat)
    requires r.WellFormed() && k <= |r.commits| && i < |r.endpoints|
    requires forall j :: !Rival(r.endpoints, i, j)
    ensures !PassedOver(r.At(k), i)
  {
    hide Run.At, Run.FilterAt;
    DisabledIsFilter(r, k, i);
    forall j: nat | i < j < |r.endpoints| ensures r.At(k).eps[i].disabled ==> r.At(k).eps[j].disabled {
      DisabledIsFilter(r, k, j);
      assert !Rival(r.endpoints, i, j);
    }
  }

  lemma UnrivalledIsSpaced(r: Run, i: nat)
    requires r.WellFormed() && WellTimed(r.commits) && i < |r.endpoints|
    requires forall j :: !Rival(r.endpoints, i, j)
    ensures Spaced(r, i)
  {
    hide Run.At, Run.Seen, Run.FailBack, PassedOver, Rival;
    forall p: nat, q: nat | p < q < |r.commits| && r.At(p + 1).active == i && r.FailBack(q) && r.At(q + 1).active == i
      ensures r.commits[q].now - r.commits[p].now >= r.holdDown
    {
      forall k | p < k <= q ensures !PassedOver(r.At(k), i) {
        UnrivalledIsNotPassedOver(r, k, i);
      }
      FailBackSpacing(r, p, q, i);
    }
  }

  /** Only `i` and its rival `j` are healthy, both since the zero clock. */
  predicate OnlyPair(s: State, i: nat, j: nat) {
    && s.WellFormed()
    && i < j < |s.eps|
    && forall e :: 0 <= e < |s.eps| ==> (s.eps[e].healthy <==> e == i || e == j) && (s.eps[e].healthy ==> s.eps[e].upSince == 0)
  }

  /** One filter call of the operator's toggling: to the rival's cluster and back. */
  lemma ToggleStep(s: State, holdDown: int, i: nat, j: nat, cluster: string)
    requires OnlyPair(s, i, j) && holdDown > 0
    requires cluster == "" || (cluster == s.eps[j].ep.cluster && cluster != s.eps[i].ep.cluster)
    requires s.active == (if cluster == "" then j else i)
    requires cluster == "" ==> s.eps[j].ep.cluster != ""
    ensures var c := Filter(cluster, holdDown);
            var s' := Apply(s, c, holdDown).state;
            && OnlyPair(s', i, j) && s'.active == (if cluster == "" then i else j)
            && s'.eps[i].ep == s.eps[i].ep && s'.eps[j].ep == s.eps[j].ep
            && (cluster == "" ==> Update(s, c).ActiveHealthy())
  {
    hide Choice;
    var u := Update(s, Filter(cluster, holdDown));
    ChoiceIsTheRule(u, holdDown, holdDown, if cluster == "" then i else j);
  }

  /** Only `i` and `j` answer the first round; then the operator toggles the filter, all at one clock. */
  function ToggledRun(endpoints: seq<Endpoint>, holdDown: int, i: nat, j: nat): Run
    requires Rival(endpoints, i, j)
  {
    var away, back := Filter(endpoints[j].cluster, holdDown), Filter("", holdDown);
    Run(endpoints, holdDown,
        [Round(0, seq(|endpoints|, e => e == i || e == j)), away, back, away, back])
  }

  lemma FirstRoundOfPair(endpoints: seq<Endpoint>, holdDown: int, i: nat, j: nat)
    requires holdDown > 0 && Rival(endpoints, i, j)
    ensures var s := Apply(Initial(endpoints), ToggledRun(endpoints, holdDown, i, j).commits[0], holdDown).state;
            OnlyPair(s, i, j) && s.active == i && s.eps[i].ep == endpoints[i] && s.eps[j].ep == endpoints[j]
  {
    hide Choice;
    ChoiceIsTheRule(Update(Initial(endpoints), ToggledRun(endpoints, holdDown, i, j).commits[0]), 0, holdDown, i);
  }

  /** Any rival lets an operator bring two fail-backs together. */
  lemma TogglingDefeatsSpacing(endpoints: seq<Endpoint>, holdDown: int, i: nat, j: nat)
    requires holdDown > 0 && Rival(endpoints, i, j)
    ensures var r := ToggledRun(endpoints, holdDown, i, j);
            && r.WellFormed() && WellTimed(r.commits)
            && r.FailBack(2) && r.FailBack(4) && r.At(3).active == r.At(5).active == i
            && r.commits[4].now == r.commits[2].now
            && !Spaced(r, i)
  {
    hide Apply, Update, OnlyPair;
    var r := ToggledRun(endpoints, holdDown, i, j);
    FirstRoundOfPair(endpoints, holdDown, i, j);
    assert r.At(0) == Initial(endpoints);
    ToggleStep(r.At(1), holdDown, i, j, endpoints[j].cluster);
    ToggleStep(r.At(2), holdDown, i, j, "");
    ToggleStep(r.At(3), holdDown, i, j, endpoints[j].cluster);
    ToggleStep(r.At(4), holdDown, i, j, "");
  }

  /**
   The configuration alone decides: fail-backs to `i` are HoldDown apart in every
   well-timed run, whatever filter calls are made, exactly when `i` has no rival.
   */
  lemma SpacingIsExact(endpoints: seq<Endpoint>, holdDown: int, i: nat)
    requires holdDown > 0 && i < |endpoints|
    ensures (forall r: Run :: r.endpoints == endpoints && r.holdDown == holdDown && r.WellFormed() && WellTimed(r.commits)
                              ==> Spaced(r, i))
            <==> (forall j :: !Rival(endpoints, i, j))
  {
    hide Rival, Spaced, Run.WellFormed, WellTimed;
    if j: nat :| Rival(endpoints, i, j) {
      TogglingDefeatsSpacing(endpoints, holdDown, i, j);
    } else {
      forall r: Run | r.endpoints == endpoints && r.holdDown == holdDown && r.WellFormed() && WellTimed(r.commits)
        ensures Spaced(r, i)
      {
        UnrivalledIsSpaced(r, i);
      }
    }
  }

  /** Two datacenters in different clusters are enough. */
  lemma FilterCallsDefeatSpacing()
    ensures exists r: Run :: r.endpoints == [Endpoint("a", "", "A", "", 0), Endpoint("b", "", "B", "", 1)] && r.holdDown == 10
                             && r.WellFormed() && WellTimed(r.commits) && !Spaced(r, 0)
  {
    var two := [Endpoint("a", "", "A", "", 0), Endpoint("b", "", "B", "", 1)];
    assert Rival(two, 0, 1);
    SpacingIsExact(two, 10, 0);
  }

  // ----- Convergence -----

  /** From commit `p` on, rounds all see the same results and filter calls repeat the filter in force. */
  ghost predicate Steady(r: Run, p: nat)
    requires r.WellFormed() && p < |r.commits|
  {
    && r.commits[p].Round?
    && forall k :: p < k < |r.commits| ==>
                     if r.commits[k].Round? then r.commits[k].oks == r.commits[p].oks
                     else r.commits[k].cluster == r.FilterAt(p)
  }

  lemma {:induction false} SteadyFilter(r: Run, p: nat, k: nat)
    requires r.WellFormed() && p < k <= |r.commits| && Steady(r, p)
    ensures r.FilterAt(k) == r.FilterAt(p)
  {
    if p + 1 < k {
      SteadyFilter(r, p, k - 1);
    }
  }

  /** In a steady world what is selectable is fixed, and every streak is at least as old as `p`. */
  lemma {:induction false} SteadyHealth(r: Run, p: nat, k: nat, i: nat)
    requires r.WellFormed() && WellTimed(r.commits) && p < k <= |r.commits| && Steady(r, p)
    requires i < |r.endpoints|
    ensures var e := r.At(k).eps[i];
            && e.healthy == r.commits[p].oks[i]
            && (e.healthy ==> e.upSince <= r.commits[p].now)
            && e.disabled == OutsideFilter(r.endpoints[i], r.FilterAt(p))
  {
    hide Run.At, Run.FilterAt, Run.StreakStart;
    SeenStays(r, k - 1);
    SteadyFilter(r, p, k);
    DisabledIsFilter(r, k, i);
    if p + 1 < k {
      SteadyHealth(r, p, k - 1, i);
    } else {
      HealthIsHistory(r, k, i);
      if r.At(k).eps[i].healthy {
        RoundClocks(r, r.StreakStart(k, i), p);
      }
    }
  }

  /**
   If probe results and filter are constant from round `p` on, then from any commit `q`
   whose clock is at least HoldDown past that round's, the active endpoint is the most
   preferred healthy one inside the filter (or none), and no switch is ever announced again.
   */
  lemma {:induction false} Converges(r: Run, p: nat, q: nat, k: nat, t: int)
    requires r.WellFormed() && WellTimed(r.commits) && p <= q < k <= |r.commits| && Steady(r, p)
    requires r.commits[q].now - r.commits[p].now >= r.holdDown
    requires Target(r.endpoints, r.commits[p].oks, r.FilterAt(p), t)
    ensures r.At(k).active == t && r.Log(k) == r.Log(q + 1)
  {
    hide Run.At, Run.Seen, Run.FilterAt, Choice, Target, Steady, Apply;
    if q + 1 < k {
      Converges(r, p, q, k - 1, t);
    }
    SteadyChoice(r, p, k, t);
    SeenStays(r, k - 1);
  }

  /** In a steady world the rule allows only the target, once it is past hold-down or already chosen. */
  lemma SteadyChoice(r: Run, p: nat, k: nat, t: int)
    requires r.WellFormed() && WellTimed(r.commits) && p < k <= |r.commits| && Steady(r, p)
    requires Target(r.endpoints, r.commits[p].oks, r.FilterAt(p), t)
    requires r.commits[k - 1].now - r.commits[p].now >= r.holdDown || r.At(k - 1).active == t
    ensures r.At(k).active == t
  {
    hide Run.At, Run.Seen, Run.FilterAt, Choice;
    var s := r.Seen(k - 1);
    SeenStays(r, k - 1);
    forall i: nat | i < |r.endpoints|
      ensures s.eps[i].Selectable() <==> r.commits[p].oks[i] && !OutsideFilter(r.endpoints[i], r.FilterAt(p))
      ensures s.eps[i].healthy ==> s.eps[i].upSince <= r.commits[p].now
    {
      SteadyHealth(r, p, k, i);
    }
    TargetIsTheRule(s, r.commits[k - 1].now, r.holdDown, t, r.commits[p].now);
  }

  /** On one state: if all streaks are older than `since`, hold-down no longer delays anything. */
  lemma TargetIsTheRule(s: State, now: int, holdDown: int, t: int, since: int)
    requires s.WellFormed() && MostPreferred(s, t)
    requires forall i :: 0 <= i < |s.eps| && s.eps[i].healthy ==> s.eps[i].upSince <= since
    requires now - since >= holdDown || s.active == t
    ensures Choice(s, now, holdDown) == t
  {
    ChoiceIsTheRule(s, now, holdDown, t);
  }
}
