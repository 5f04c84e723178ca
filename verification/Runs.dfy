/**
 Runs of the Supervisor: sequences of critical sections in the order the lock admits
 them, the states they pass through, and what the endpoints' clocks mean in terms of
 the rounds that were committed.
 */
module Runs {
  import opened Wrappers
  import opened Transport
  import opened Supervision

  /**
   The clock order the lock permits. A filter call reads the clock inside the lock. A
   round reads it before probing, but rounds are sequential, so a round's clock is only
   known to be no earlier than what was committed up to the previous round: filter calls
   that commit in between may carry a later one.
   */
  predicate WellTimed(cs: seq<Commit>) {
    forall j, k {:trigger ReadsAfter(cs, j, k)} :: 0 <= j < k < |cs| && ReadsAfter(cs, j, k) ==> cs[j].now <= cs[k].now
  }

  /** Commit `k` read its clock after commit `j` had finished. */
  predicate ReadsAfter(cs: seq<Commit>, j: int, k: int)
    requires 0 <= j < k < |cs|
  {
    cs[k].Filter? || exists p :: j <= p < k && cs[p].Round?
  }

  datatype Run = Run(endpoints: seq<Endpoint>, holdDown: int, commits: seq<Commit>)
  {
    ghost predicate WellFormed() {
      && holdDown > 0
      && forall k :: 0 <= k < |commits| ==> Fits(commits[k], |endpoints|)
    }

    /** The state after the first `k` commits. */
    ghost function At(k: nat): (s: State)
      requires WellFormed() && k <= |commits|
      ensures s.WellFormed() && |s.eps| == |endpoints|
      ensures forall i :: 0 <= i < |endpoints| ==> s.eps[i].ep == endpoints[i]
    {
      if k == 0 then Initial(endpoints) else Apply(At(k - 1), commits[k - 1], holdDown).state
    }

    /** What commit `k` has written when its reselection starts. */
    ghost function Seen(k: nat): State
      requires WellFormed() && k < |commits|
    {
      Update(At(k), commits[k])
    }

    ghost function SwitchAt(k: nat): Option<Switch>
      requires WellFormed() && k < |commits|
    {
      Apply(At(k), commits[k], holdDown).switch
    }

    /** The switches announced by the first `k` commits, in commit order. */
    ghost function Log(k: nat): seq<Switch>
      requires WellFormed() && k <= |commits|
    {
      if k == 0 then []
      else match SwitchAt(k - 1)
        case None => Log(k - 1)
        case Some(sw) => Log(k - 1) + [sw]
    }

    /** The filter in force after the first `k` commits. */
    ghost function FilterAt(k: nat): string
      requires k <= |commits|
    {
      if k == 0 then "" else if commits[k - 1].Filter? then commits[k - 1].cluster else FilterAt(k - 1)
    }

    /** The active choice changed although the old one was still healthy and enabled. */
    ghost predicate FailBack(k: nat)
      requires WellFormed() && k < |commits|
    {
      Seen(k).ActiveHealthy() && At(k + 1).active != At(k).active
    }

    /** The active choice changed because the old one was unhealthy, disabled or absent. */
    ghost predicate ForcedChange(k: nat)
      requires WellFormed() && k < |commits|
    {
      !Seen(k).ActiveHealthy() && At(k + 1).active != At(k).active
    }

    /** Round `from` passed endpoint `i`, and so did every round committed from there up to `k`. */
    ghost predicate PassedSince(from: int, k: nat, i: nat)
      requires WellFormed() && k <= |commits| && i < |endpoints|
    {
      && 0 <= from < k
      && commits[from].Round?
      && forall m :: from <= m < k && commits[m].Round? ==> commits[m].oks[i]
    }

    /** The round that began the current unbroken success streak of `i`, or -1. */
    ghost function StreakStart(k: nat, i: nat): (st: int)
      requires WellFormed() && k <= |commits| && i < |endpoints|
      ensures st >= 0 ==> PassedSince(st, k, i)
      ensures forall from :: PassedSince(from, k, i) ==> 0 <= st <= from
    {
      if k == 0 then -1
      else
        var before := StreakStart(k - 1, i);
        match commits[k - 1]
        case Filter(_, _) => assert forall f :: PassedSince(f, k, i) ==> f < k - 1 && PassedSince(f, k - 1, i); before
        case Round(_, oks) =>
          assert forall f :: PassedSince(f, k, i) ==> f == k - 1 || PassedSince(f, k - 1, i);
          assert forall f :: PassedSince(f, k, i) ==> commits[k - 1].oks[i];
          if !oks[i] then -1 else if before >= 0 then before else k - 1
    }
  }

  /** A commit appended to a run leaves every earlier state and announcement alone. */
  lemma {:induction false} AppendKeeps(r: Run, c: Commit, k: nat)
    requires r.WellFormed() && Fits(c, |r.endpoints|) && k <= |r.commits|
    ensures var r' := r.(commits := r.commits + [c]);
            r'.WellFormed() && r'.At(k) == r.At(k) && r'.Log(k) == r.Log(k)
  {
    hide Apply;
    if k > 0 {
      AppendKeeps(r, c, k - 1);
    }
  }

  /** Appending a commit extends the run by exactly one application of it. */
  lemma AppendExtends(r: Run, c: Commit)
    requires r.WellFormed() && Fits(c, |r.endpoints|)
    ensures var r' := r.(commits := r.commits + [c]);
            var o := Apply(r.At(|r.commits|), c, r.holdDown);
            && r'.WellFormed()
            && r'.At(|r'.commits|) == o.state
            && r'.Log(|r'.commits|) == r.Log(|r.commits|) + (if o.switch.Some? then [o.switch.value] else [])
  {
    hide Apply;
    AppendKeeps(r, c, |r.commits|);
  }

  lemma SeenRecord(r: Run, k: nat, i: nat)
    requires r.WellFormed() && k < |r.commits| && i < |r.endpoints|
    ensures var e, c := r.At(k).eps[i], r.commits[k];
            r.At(k + 1).eps[i] ==
              if c.Round? then Observe(e, c.oks[i], c.now)
              else e.(disabled := OutsideFilter(r.endpoints[i], c.cluster))
  {
    hide Choice, Observe;
    SeenStays(r, k);
  }

  lemma FirstRecord(r: Run, i: nat)
    requires r.WellFormed() && i < |r.endpoints|
    ensures r.At(0).eps[i] == Fresh(r.endpoints[i])
  {
  }

  lemma {:induction false} ClockIsStreakStart(r: Run, k: nat, i: nat)
    requires r.WellFormed() && k <= |r.commits| && i < |r.endpoints|
    ensures var e, st := r.At(k).eps[i], r.StreakStart(k, i);
            && (e.healthy <==> st >= 0)
            && (st >= 0 ==> e.upSince == r.commits[st].now)
  {
    hide Run.At, Run.PassedSince;
    if k > 0 {
      ClockIsStreakStart(r, k - 1, i);
      SeenRecord(r, k - 1, i);
    } else {
      FirstRecord(r, i);
    }
  }

  lemma {:induction false} HealthIsLastResult(r: Run, k: nat, i: nat)
    requires r.WellFormed() && k <= |r.commits| && i < |r.endpoints|
    ensures var e := r.At(k).eps[i];
            && (e.health == Up <==> e.healthy)
            && (e.health == Unknown <==> forall m :: 0 <= m < k ==> r.commits[m].Filter?)
  {
    hide Run.At;
    if k > 0 {
      HealthIsLastResult(r, k - 1, i);
      SeenRecord(r, k - 1, i);
    } else {
      FirstRecord(r, i);
    }
  }

  /** Health and the hold-down clock are functions of the committed rounds alone. */
  lemma HealthIsHistory(r: Run, k: nat, i: nat)
    requires r.WellFormed() && k <= |r.commits| && i < |r.endpoints|
    ensures var e := r.At(k).eps[i];
            && (e.healthy <==> exists from :: r.PassedSince(from, k, i))
            && (e.healthy ==> r.StreakStart(k, i) >= 0 && e.upSince == r.commits[r.StreakStart(k, i)].now)
            && (e.health == Up <==> e.healthy)
            && (e.health == Unknown <==> forall m :: 0 <= m < k ==> r.commits[m].Filter?)
  {
    hide Run.At, Run.PassedSince;
    ClockIsStreakStart(r, k, i);
    HealthIsLastResult(r, k, i);
  }

  /** An endpoint is disabled exactly when the last filter call left it outside. */
  lemma {:induction false} DisabledIsFilter(r: Run, k: nat, i: nat)
    requires r.WellFormed() && k <= |r.commits| && i < |r.endpoints|
    ensures r.At(k).eps[i].disabled == OutsideFilter(r.endpoints[i], r.FilterAt(k))
  {
    hide Run.At;
    if k > 0 {
      SeenRecord(r, k - 1, i);
      DisabledIsFilter(r, k - 1, i);
    } else {
      FirstRecord(r, i);
    }
  }

  /** Reselection moves the choice and nothing else. */
  lemma SeenStays(r: Run, k: nat)
    requires r.WellFormed() && k < |r.commits|
    ensures r.At(k + 1).eps == r.Seen(k).eps && r.Seen(k).active == r.At(k).active
    ensures r.At(k + 1).active == Choice(r.Seen(k), r.commits[k].now, r.holdDown)
    ensures r.SwitchAt(k) == None <==> r.At(k + 1).active == r.At(k).active
    ensures forall i :: 0 <= i < |r.endpoints| ==>
              r.At(k + 1).eps[i].disabled ==
                if r.commits[k].Round? then r.At(k).eps[i].disabled
                else OutsideFilter(r.endpoints[i], r.commits[k].cluster)
  {
    hide Choice;
  }

  lemma {:induction false} ConsistentAt(r: Run, k: nat)
    requires r.WellFormed() && k <= |r.commits|
    ensures Consistent(r.At(k))
  {
    if k > 0 {
      ConsistentAt(r, k - 1);
      ApplyIsConsistent(r.At(k - 1), r.commits[k - 1], r.holdDown);
    }
  }

  /** Rounds are sequential, so their clocks never run backwards. */
  lemma RoundClocks(r: Run, j: nat, k: nat)
    requires WellTimed(r.commits) && j <= k < |r.commits|
    requires r.commits[j].Round?
    ensures r.commits[j].now <= r.commits[k].now
  {
    if j < k {
      assert ReadsAfter(r.commits, j, k);
    }
  }

  /**
   Reachable states. After every commit, however rounds and filter calls interleave, the
   choice is -1 exactly when nothing healthy is enabled and otherwise names an enabled
   healthy endpoint, `allDown` mirrors it, and no hold-down clock is ahead of the clock
   the commit used.
   */
  lemma ReachableStates(r: Run, k: nat)
    requires r.WellFormed() && WellTimed(r.commits) && k <= |r.commits|
    ensures Consistent(r.At(k))
    ensures k > 0 ==> forall i :: 0 <= i < |r.endpoints| && r.At(k).eps[i].healthy
                                  ==> r.At(k).eps[i].upSince <= r.commits[k - 1].now
  {
    ConsistentAt(r, k);
    forall i | k > 0 && 0 <= i < |r.endpoints| && r.At(k).eps[i].healthy
      ensures r.At(k).eps[i].upSince <= r.commits[k - 1].now
    {
      HealthIsHistory(r, k, i);
      RoundClocks(r, r.StreakStart(k, i), k - 1);
    }
  }
}
