/**
 The interleavings the lock permits. A round reads the clock, probes outside the lock in
 any order, and commits under it; a filter call commits under the lock at any moment,
 also while a round is probing. The executions of this relation and the well-timed commit
 sequences are the same thing, so theorems about runs hold of every interleaving.
 */
module Interleaving {
  import opened Wrappers
  import opened Transport
  import opened Supervision
  import opened Runs

  datatype Phase = Idle | Probing(now: int, results: seq<Option<bool>>)

  /** The Supervisor, the wall clock, the one `Run` goroutine, and what has been committed. */
  datatype World = World(sup: State, clock: int, phase: Phase, trace: seq<Commit>, log: seq<Switch>)

  datatype Event =
    | RoundBegin(now: int)
    | ProbeDone(i: nat, ok: bool)
    | RoundCommit
    | SetFilter(cluster: string, now: int)

  function Start(endpoints: seq<Endpoint>, clock: int): World {
    World(Initial(endpoints), clock, Idle, [], [])
  }

  predicate Complete(results: seq<Option<bool>>) {
    forall i :: 0 <= i < |results| ==> results[i].Some?
  }

  function Values(results: seq<Option<bool>>): seq<bool>
    requires Complete(results)
  {
    seq(|results|, i requires 0 <= i < |results| => results[i].value)
  }

  predicate Enabled(w: World, e: Event) {
    && w.sup.WellFormed()
    && match e
       case RoundBegin(now) => w.phase.Idle? && w.clock <= now
       case ProbeDone(i, _) => w.phase.Probing? && i < |w.phase.results| && w.phase.results[i].None?
       case RoundCommit => w.phase.Probing? && Complete(w.phase.results) && |w.phase.results| == |w.sup.eps|
       case SetFilter(_, now) => w.clock <= now
  }

  function Commits(w: World, c: Commit, clock: int, phase: Phase, holdDown: int): World
    requires w.sup.WellFormed() && Fits(c, |w.sup.eps|)
  {
    var o := Apply(w.sup, c, holdDown);
    World(o.state, clock, phase, w.trace + [c], w.log + (if o.switch.Some? then [o.switch.value] else []))
  }

  function Step(w: World, e: Event, holdDown: int): World
    requires Enabled(w, e)
  {
    match e
    case RoundBegin(now) => w.(clock := now, phase := Probing(now, seq(|w.sup.eps|, _ => None)))
    case ProbeDone(i, ok) => w.(phase := w.phase.(results := w.phase.results[i := Some(ok)]))
    case RoundCommit => Commits(w, Round(w.phase.now, Values(w.phase.results)), w.clock, Idle, holdDown)
    case SetFilter(cluster, now) => Commits(w, Filter(cluster, now), now, w.phase, holdDown)
  }

  /** Where a sequence of events leads; none if some event is not possible when its turn comes. */
  function Execute(w: World, events: seq<Event>, holdDown: int): Option<World> {
    if events == [] then Some(w)
    else
      var last := |events| - 1;
      match Execute(w, events[..last], holdDown)
      case None => None
      case Some(v) => if Enabled(v, events[last]) then Some(Step(v, events[last], holdDown)) else None
  }

  /** What holds between any two events. */
  ghost predicate Explained(w: World, endpoints: seq<Endpoint>, holdDown: int) {
    var r := Run(endpoints, holdDown, w.trace);
    && r.WellFormed() && WellTimed(w.trace)
    && w.sup == r.At(|w.trace|) && w.log == r.Log(|w.trace|)
    && (forall j :: 0 <= j < |w.trace| ==> w.trace[j].now <= w.clock)
    && (w.phase.Probing? ==>
          && |w.phase.results| == |endpoints| && w.phase.now <= w.clock
          && forall j :: 0 <= j < |w.trace| && RoundFrom(w.trace, j) ==> w.trace[j].now <= w.phase.now)
  }

  /** Some round is committed at or after position `j`. */
  predicate RoundFrom(cs: seq<Commit>, j: int) {
    exists p :: 0 <= p < |cs| && j <= p && cs[p].Round?
  }

  lemma WellTimedExtends(cs: seq<Commit>, c: Commit)
    requires WellTimed(cs)
    requires forall j :: 0 <= j < |cs| && (c.Filter? || RoundFrom(cs, j)) ==> cs[j].now <= c.now
    ensures WellTimed(cs + [c])
  {
    var all := cs + [c];
    forall j, k | 0 <= j < k < |all| && ReadsAfter(all, j, k) ensures all[j].now <= all[k].now {
      if k < |cs| {
        if !cs[k].Filter? {
          var p :| j <= p < k && all[p].Round?;
          assert cs[p].Round?;
        }
        assert ReadsAfter(cs, j, k);
      } else if !c.Filter? {
        var p :| j <= p < k && all[p].Round?;
        assert cs[p].Round?;
      }
    }
  }

  lemma CommitExplained(w: World, c: Commit, clock: int, phase: Phase, endpoints: seq<Endpoint>, holdDown: int)
    requires Explained(w, endpoints, holdDown) && Fits(c, |endpoints|)
    requires forall j :: 0 <= j < |w.trace| && (c.Filter? || RoundFrom(w.trace, j)) ==> w.trace[j].now <= c.now
    requires w.clock <= clock && c.now <= clock
    requires phase.Idle? || (phase == w.phase && c.Filter?)
    ensures Explained(Commits(w, c, clock, phase, holdDown), endpoints, holdDown)
  {
    hide Run.At, Run.Log, Apply, WellTimed;
    WellTimedExtends(w.trace, c);
    AppendExtends(Run(endpoints, holdDown, w.trace), c);
    var w' := Commits(w, c, clock, phase, holdDown);
    forall j | 0 <= j < |w'.trace| && phase.Probing? && RoundFrom(w'.trace, j)
      ensures w'.trace[j].now <= phase.now
    {
      var p :| 0 <= p < |w'.trace| && j <= p && w'.trace[p].Round?;
      assert w.trace[p].Round?;
      assert RoundFrom(w.trace, j);
    }
  }

  lemma StepExplained(w: World, e: Event, endpoints: seq<Endpoint>, holdDown: int)
    requires Explained(w, endpoints, holdDown) && Enabled(w, e)
    ensures Explained(Step(w, e, holdDown), endpoints, holdDown)
  {
    hide Run.At, Run.Log, Apply, WellTimed;
    match e
    case RoundBegin(now) =>
    case ProbeDone(i, ok) =>
    case RoundCommit =>
      CommitExplained(w, Round(w.phase.now, Values(w.phase.results)), w.clock, Idle, endpoints, holdDown);
    case SetFilter(cluster, now) =>
      CommitExplained(w, Filter(cluster, now), now, w.phase, endpoints, holdDown);
  }

  /** Every interleaving is a well-timed run: its state and its announcements are the run's. */
  lemma {:induction false} InterleavingsAreRuns(
    endpoints: seq<Endpoint>, clock: int, holdDown: int, events: seq<Event>)
    requires holdDown > 0
    ensures match Execute(Start(endpoints, clock), events, holdDown)
            case None => true
            case Some(w) =>
              var r := Run(endpoints, holdDown, w.trace);
              && r.WellFormed() && WellTimed(w.trace)
              && w.sup == r.At(|w.trace|) && w.log == r.Log(|w.trace|)
              && Explained(w, endpoints, holdDown)
  {
    hide Explained;
    if events == [] {
      StartExplained(endpoints, clock, holdDown);
      ExplainedMeans(Start(endpoints, clock), endpoints, holdDown);
    } else {
      var last := |events| - 1;
      InterleavingsAreRuns(endpoints, clock, holdDown, events[..last]);
      match Execute(Start(endpoints, clock), events[..last], holdDown)
      case None =>
      case Some(v) =>
        if Enabled(v, events[last]) {
          StepExplained(v, events[last], endpoints, holdDown);
          ExplainedMeans(Step(v, events[last], holdDown), endpoints, holdDown);
        }
    }
  }

  lemma StartExplained(endpoints: seq<Endpoint>, clock: int, holdDown: int)
    requires holdDown > 0
    ensures Explained(Start(endpoints, clock), endpoints, holdDown)
  {
  }

  lemma ExplainedMeans(w: World, endpoints: seq<Endpoint>, holdDown: int)
    requires Explained(w, endpoints, holdDown)
    ensures var r := Run(endpoints, holdDown, w.trace);
            && r.WellFormed() && WellTimed(w.trace)
            && w.sup == r.At(|w.trace|) && w.log == r.Log(|w.trace|)
  {
  }

  // ----- The trace is what happened -----

  predicate IsCommit(e: Event) {
    e.RoundCommit? || e.SetFilter?
  }

  /** How many of the events commit something. */
  function CommitsIn(events: seq<Event>): nat {
    if events == [] then 0
    else CommitsIn(events[..|events| - 1]) + if IsCommit(events[|events| - 1]) then 1 else 0
  }

  /** Between `b` and `k` exactly one probe of `i` reported, and it reported `ok`. */
  ghost predicate Reported(events: seq<Event>, b: int, k: int, i: nat, ok: bool)
    requires 0 <= b && k <= |events|
  {
    exists m :: b < m < k && events[m] == ProbeDone(i, ok)
                && forall n :: b < n < k && events[n].ProbeDone? && events[n].i == i ==> n == m
  }

  /** A round begun at event `b` is under way just before event `k`. */
  predicate UnderWay(events: seq<Event>, b: int, k: int)
    requires k <= |events|
  {
    0 <= b < k && events[b].RoundBegin? && forall m :: b < m < k ==> !events[m].RoundBegin? && !events[m].RoundCommit?
  }

  /**
   `c` is what event `k` committed: the filter call itself, or a round with the clock it began
   with and, for each endpoint, the one result its probe reported since.
   */
  ghost predicate Accounts(events: seq<Event>, k: int, n: nat, c: Commit)
    requires 0 <= k < |events|
  {
    if events[k].SetFilter? then c == Filter(events[k].cluster, events[k].now)
    else
      && events[k].RoundCommit? && c.Round? && |c.oks| == n
      && exists b :: UnderWay(events, b, k) && events[b].now == c.now
                     && forall i: nat :: i < n ==> Reported(events, b, k, i, c.oks[i])
  }

  /** The phase is what the events since the last `RoundBegin` say; idle, no round is under way. */
  ghost predicate PhaseTracks(phase: Phase, events: seq<Event>, n: nat) {
    if phase.Idle? then forall b :: !UnderWay(events, b, |events|)
    else
      && |phase.results| == n
      && exists b :: UnderWay(events, b, |events|) && events[b].now == phase.now && ResultsTrack(phase.results, events, b)
  }

  ghost predicate ResultsTrack(results: seq<Option<bool>>, events: seq<Event>, b: int)
    requires 0 <= b
  {
    forall i: nat :: i < |results| ==>
      if results[i].Some? then Reported(events, b, |events|, i, results[i].value)
      else NotReported(events, b, i)
  }

  predicate NotReported(events: seq<Event>, b: int, i: nat)
    requires 0 <= b
  {
    forall m :: b < m < |events| && events[m].ProbeDone? ==> events[m].i != i
  }

  lemma ReportedStays(events: seq<Event>, e: Event, b: int, k: int, i: nat, ok: bool)
    requires 0 <= b && k <= |events| && Reported(events, b, k, i, ok)
    ensures Reported(events + [e], b, k, i, ok)
    ensures k == |events| && !(e.ProbeDone? && e.i == i) ==> Reported(events + [e], b, k + 1, i, ok)
  {
    var m :| b < m < k && events[m] == ProbeDone(i, ok)
             && forall n :: b < n < k && events[n].ProbeDone? && events[n].i == i ==> n == m;
    assert (events + [e])[m] == ProbeDone(i, ok);
  }

  lemma ResultsTrackStep(results: seq<Option<bool>>, events: seq<Event>, b: int, e: Event)
    requires 0 <= b < |events| && ResultsTrack(results, events, b)
    requires e.ProbeDone? ==> e.i < |results| && results[e.i].None?
    ensures ResultsTrack(if e.ProbeDone? then results[e.i := Some(e.ok)] else results, events + [e], b)
  {
    var all := events + [e];
    var results' := if e.ProbeDone? then results[e.i := Some(e.ok)] else results;
    forall i: nat | i < |results'|
      ensures if results'[i].Some? then Reported(all, b, |all|, i, results'[i].value) else NotReported(all, b, i)
    {
      if e.ProbeDone? && e.i == i {
        assert all[|events|] == ProbeDone(i, e.ok);
        assert NotReported(events, b, i);
      } else if results[i].Some? {
        ReportedStays(events, e, b, |events|, i, results[i].value);
      } else {
        assert NotReported(events, b, i);
      }
    }
  }

  lemma UnderWayBefore(events: seq<Event>, e: Event, b: int, k: int)
    requires k <= |events| + 1 && UnderWay(events + [e], b, k)
    ensures b < |events| ==> UnderWay(events, b, if k <= |events| then k else |events|)
    ensures k == |events| + 1 ==> if b == |events| then e.RoundBegin? else !e.RoundCommit? && !e.RoundBegin?
  {
    var all := events + [e];
    forall m | b < m < k && m < |events| ensures !events[m].RoundBegin? && !events[m].RoundCommit? {
      assert all[m] == events[m];
    }
    if k == |events| + 1 && b < |events| {
      assert all[|events|] == e;
    }
  }

  lemma PhaseTracksStep(w: World, events: seq<Event>, e: Event, holdDown: int, n: nat)
    requires PhaseTracks(w.phase, events, n) && Enabled(w, e) && |w.sup.eps| == n
    ensures PhaseTracks(Step(w, e, holdDown).phase, events + [e], n)
  {
    hide Apply, ResultsTrack, Values;
    var all := events + [e];
    var phase' := Step(w, e, holdDown).phase;
    if e.RoundBegin? {
      assert UnderWay(all, |events|, |all|);
      NothingReportedYet(phase'.results, all);
    } else if phase'.Probing? {
      var b :| UnderWay(events, b, |events|) && events[b].now == w.phase.now && ResultsTrack(w.phase.results, events, b);
      ResultsTrackStep(w.phase.results, events, b, e);
      assert UnderWay(all, b, |all|);
    } else {
      forall b ensures !UnderWay(all, b, |all|) {
        if UnderWay(all, b, |all|) {
          UnderWayBefore(events, e, b, |all|);
        }
      }
    }
  }

  lemma NothingReportedYet(results: seq<Option<bool>>, events: seq<Event>)
    requires events != [] && forall i :: 0 <= i < |results| ==> results[i].None?
    ensures ResultsTrack(results, events, |events| - 1)
  {
  }

  lemma CommitAccounted(w: World, events: seq<Event>, e: Event, holdDown: int, n: nat)
    requires PhaseTracks(w.phase, events, n) && Enabled(w, e) && |w.sup.eps| == n
    ensures var w' := Step(w, e, holdDown);
            if IsCommit(e) then |w'.trace| == |w.trace| + 1 && w'.trace[..|w.trace|] == w.trace
                                && Accounts(events + [e], |events|, n, w'.trace[|w.trace|])
            else w'.trace == w.trace
  {
    hide Apply;
    var all := events + [e];
    if e.RoundCommit? {
      var b :| UnderWay(events, b, |events|) && events[b].now == w.phase.now && ResultsTrack(w.phase.results, events, b);
      assert UnderWay(all, b, |events|);
      var c := Step(w, e, holdDown).trace[|w.trace|];
      forall i: nat | i < n ensures Reported(all, b, |events|, i, c.oks[i]) {
        assert w.phase.results[i].Some?;
        ReportedStays(events, e, b, |events|, i, c.oks[i]);
      }
    }
  }

  lemma AccountsStays(events: seq<Event>, e: Event, k: nat, n: nat, c: Commit)
    requires k < |events| && Accounts(events, k, n, c)
    ensures Accounts(events + [e], k, n, c)
  {
    hide Reported;
    if events[k].RoundCommit? {
      var b :| UnderWay(events, b, k) && events[b].now == c.now
               && forall i: nat :: i < n ==> Reported(events, b, k, i, c.oks[i]);
      assert UnderWay(events + [e], b, k);
      forall i: nat | i < n ensures Reported(events + [e], b, k, i, c.oks[i]) {
        ReportedStays(events, e, b, k, i, c.oks[i]);
      }
    }
  }

  /** `trace` has one commit for every committing event, in order, each accounted for by the events before it. */
  ghost predicate TraceAccounts(trace: seq<Commit>, events: seq<Event>, n: nat) {
    && |trace| == CommitsIn(events)
    && forall k :: 0 <= k < |events| && IsCommit(events[k]) ==>
         CommitsIn(events[..k]) < |trace| && Accounts(events, k, n, trace[CommitsIn(events[..k])])
  }

  /** No round begins while another is under way. */
  ghost predicate RoundsAreSequential(events: seq<Event>) {
    forall b, k :: 0 <= k < |events| && events[k].RoundBegin? ==> !UnderWay(events, b, k)
  }

  lemma SequentialStep(w: World, events: seq<Event>, e: Event, n: nat)
    requires RoundsAreSequential(events) && PhaseTracks(w.phase, events, n) && Enabled(w, e)
    ensures RoundsAreSequential(events + [e])
  {
    var all := events + [e];
    forall b, k | 0 <= k < |all| && all[k].RoundBegin? ensures !UnderWay(all, b, k) {
      if UnderWay(all, b, k) {
        UnderWayBefore(events, e, b, k);
      }
    }
  }

  lemma TraceAccountsStep(trace: seq<Commit>, events: seq<Event>, e: Event, n: nat, trace': seq<Commit>)
    requires TraceAccounts(trace, events, n)
    requires if IsCommit(e) then |trace'| == |trace| + 1 && trace'[..|trace|] == trace
                                 && Accounts(events + [e], |events|, n, trace'[|trace|])
             else trace' == trace
    ensures TraceAccounts(trace', events + [e], n)
  {
    hide Accounts;
    var all := events + [e];
    assert all[..|events|] == events;
    forall k | 0 <= k < |all| && IsCommit(all[k])
      ensures CommitsIn(all[..k]) < |trace'| && Accounts(all, k, n, trace'[CommitsIn(all[..k])])
    {
      if k < |events| {
        assert all[..k] == events[..k];
        var c := trace[CommitsIn(events[..k])];
        AccountsStays(events, e, k, n, c);
        assert trace'[CommitsIn(events[..k])] == trace'[..|trace|][CommitsIn(events[..k])];
      }
    }
  }

  /**
   In every execution the commits are exactly what happened: one for each committing event, in
   order; a filter call is itself; a round has the clock read when it began and, for each
   endpoint, the result the one probe of that endpoint reported in between. Rounds do not overlap.
   */
  lemma {:induction false} TraceIsWhatHappened(endpoints: seq<Endpoint>, clock: int, holdDown: int, events: seq<Event>)
    ensures match Execute(Start(endpoints, clock), events, holdDown)
            case None => true
            case Some(w) =>
              && TraceAccounts(w.trace, events, |endpoints|) && RoundsAreSequential(events)
              && PhaseTracks(w.phase, events, |endpoints|) && |w.sup.eps| == |endpoints|
  {
    hide PhaseTracks, TraceAccounts, Accounts, RoundsAreSequential;
    if events == [] {
      NothingHappened(endpoints, clock);
    } else {
      var last := |events| - 1;
      TraceIsWhatHappened(endpoints, clock, holdDown, events[..last]);
      match Execute(Start(endpoints, clock), events[..last], holdDown)
      case None =>
      case Some(v) =>
        if Enabled(v, events[last]) {
          var w := Step(v, events[last], holdDown);
          assert events == events[..last] + [events[last]];
          PhaseTracksStep(v, events[..last], events[last], holdDown, |endpoints|);
          CommitAccounted(v, events[..last], events[last], holdDown, |endpoints|);
          TraceAccountsStep(v.trace, events[..last], events[last], |endpoints|, w.trace);
          SequentialStep(v, events[..last], events[last], |endpoints|);
          StepKeepsSize(v, events[last], holdDown);
        }
    }
  }

  lemma StepKeepsSize(w: World, e: Event, holdDown: int)
    requires Enabled(w, e)
    ensures |Step(w, e, holdDown).sup.eps| == |w.sup.eps|
  {
    hide Reselect;
  }

  lemma NothingHappened(endpoints: seq<Endpoint>, clock: int)
    ensures var w := Start(endpoints, clock);
            RoundsAreSequential([]) && TraceAccounts(w.trace, [], |endpoints|) && PhaseTracks(w.phase, [], |endpoints|) && |w.sup.eps| == |endpoints|
  {
  }

  /** Where a round commits, its results are those the probes reported since it began, and its clock is that of its beginning. */
  lemma RoundsCommitTheirProbes(endpoints: seq<Endpoint>, clock: int, holdDown: int, events: seq<Event>, w: World)
    returns (b: nat)
    requires Execute(Start(endpoints, clock), events + [RoundCommit], holdDown) == Some(w)
    ensures UnderWay(events, b, |events|) && w.trace != []
    ensures var c := w.trace[|w.trace| - 1];
            && c.Round? && c.now == events[b].now && |c.oks| == |endpoints|
            && forall i: nat :: i < |endpoints| ==> Reported(events, b, |events|, i, c.oks[i])
  {
    hide Execute, PhaseTracks, Reported;
    var all := events + [RoundCommit];
    TraceIsWhatHappened(endpoints, clock, holdDown, all);
    assert all[..|events|] == events;
    var c := w.trace[CommitsIn(events)];
    assert Accounts(all, |events|, |endpoints|, c);
    b :| UnderWay(all, b, |events|) && all[b].now == c.now
         && forall i: nat :: i < |endpoints| ==> Reported(all, b, |events|, i, c.oks[i]);
    assert UnderWay(events, b, |events|);
    forall i: nat | i < |endpoints| ensures Reported(events, b, |events|, i, c.oks[i]) {
      assert Reported(all, b, |events|, i, c.oks[i]);
      ReportedBefore(events, RoundCommit, b, i, c.oks[i]);
    }
  }

  lemma ReportedBefore(events: seq<Event>, e: Event, b: int, i: nat, ok: bool)
    requires 0 <= b && Reported(events + [e], b, |events|, i, ok)
    ensures Reported(events, b, |events|, i, ok)
  {
    var m :| b < m < |events| && (events + [e])[m] == ProbeDone(i, ok)
             && forall n :: b < n < |events| && (events + [e])[n].ProbeDone? && (events + [e])[n].i == i ==> n == m;
    forall n | b < n < |events| && events[n].ProbeDone? && events[n].i == i ensures n == m {
      assert (events + [e])[n] == events[n];
    }
  }

  // ----- Every well-timed run is an interleaving -----

  lemma {:induction false} ExecuteConcat(w: World, a: seq<Event>, b: seq<Event>, holdDown: int)
    ensures Execute(w, a + b, holdDown) ==
            match Execute(w, a, holdDown) case None => None case Some(v) => Execute(v, b, holdDown)
  {
    hide Enabled, Step;
    if b == [] {
      assert a + b == a;
    } else {
      var last := |b| - 1;
      ExecuteConcat(w, a, b[..last], holdDown);
      assert (a + b)[..|a + b| - 1] == a + b[..last];
    }
  }

  lemma ExecuteOne(w: World, e: Event, holdDown: int)
    requires Enabled(w, e)
    ensures Execute(w, [e], holdDown) == Some(Step(w, e, holdDown))
  {
    hide Enabled, Step;
    assert [e][..0] == [];
    assert Execute(w, [e][..0], holdDown) == Some(w);
  }

  /** Probes can report one after the other, whatever their results. */
  lemma {:induction false} ProbeAll(w: World, oks: seq<bool>, n: nat, holdDown: int) returns (events: seq<Event>)
    requires w.phase.Probing? && w.sup.WellFormed() && n <= |oks| == |w.phase.results|
    requires w.phase.results == seq(|oks|, _ => None)
    ensures Execute(w, events, holdDown)
            == Some(w.(phase := w.phase.(results :=
                 seq(|oks|, i requires 0 <= i < |oks| => if i < n then Some(oks[i]) else None))))
  {
    var upTo := (m: nat) => seq(|oks|, i requires 0 <= i < |oks| => if i < m then Some(oks[i]) else None);
    if n == 0 {
      events := [];
      assert upTo(0) == w.phase.results;
    } else {
      var before := ProbeAll(w, oks, n - 1, holdDown);
      var v := w.(phase := w.phase.(results := upTo(n - 1)));
      var e := ProbeDone(n - 1, oks[n - 1]);
      ExecuteOne(v, e, holdDown);
      ExecuteConcat(w, before, [e], holdDown);
      events := before + [e];
      assert upTo(n - 1)[n - 1 := Some(oks[n - 1])] == upTo(n);
    }
  }

  /** The world after committing the filter calls `cs`, in order, whatever the phase. */
  function AfterFilters(w: World, cs: seq<Commit>, holdDown: int): (v: World)
    requires w.sup.WellFormed() && forall j :: 0 <= j < |cs| ==> cs[j].Filter?
    ensures v.sup.WellFormed() && |v.sup.eps| == |w.sup.eps| && v.phase == w.phase && v.trace == w.trace + cs
    ensures v.clock == if cs == [] then w.clock else cs[|cs| - 1].now
  {
    if cs == [] then w
    else
      var v := AfterFilters(w, cs[..|cs| - 1], holdDown);
      var c := cs[|cs| - 1];
      assert w.trace + cs == w.trace + cs[..|cs| - 1] + [c];
      Commits(v, c, c.now, v.phase, holdDown)
  }

  lemma {:induction false} FilterAll(w: World, cs: seq<Commit>, holdDown: int) returns (events: seq<Event>)
    requires w.sup.WellFormed() && forall j :: 0 <= j < |cs| ==> cs[j].Filter? && w.clock <= cs[j].now
    requires forall j, k :: 0 <= j < k < |cs| ==> cs[j].now <= cs[k].now
    ensures Execute(w, events, holdDown) == Some(AfterFilters(w, cs, holdDown))
  {
    hide Apply;
    if cs == [] {
      events := [];
    } else {
      var last := |cs| - 1;
      var before := FilterAll(w, cs[..last], holdDown);
      var v := AfterFilters(w, cs[..last], holdDown);
      var e := SetFilter(cs[last].cluster, cs[last].now);
      ExecuteOne(v, e, holdDown);
      ExecuteConcat(w, before, [e], holdDown);
      events := before + [e];
    }
  }

  /** Where a round that commits at position `n` can have begun: before the filter calls with a later clock. */
  lemma {:induction false} BeginPoint(cs: seq<Commit>, n: nat, m: nat) returns (b: nat)
    requires WellTimed(cs) && m <= n < |cs| && cs[n].Round?
    requires forall j :: m <= j < n ==> cs[j].Filter? && cs[j].now > cs[n].now
    ensures b <= n && forall j :: b <= j < n ==> cs[j].Filter? && cs[j].now > cs[n].now
    ensures forall j :: 0 <= j < b ==> cs[j].now <= cs[n].now
  {
    if m == 0 {
      b := 0;
    } else if cs[m - 1].Filter? && cs[m - 1].now > cs[n].now {
      b := BeginPoint(cs, n, m - 1);
    } else {
      b := m;
      forall j | 0 <= j < m ensures cs[j].now <= cs[n].now {
        if cs[m - 1].Round? {
          assert ReadsAfter(cs, j, n);
        } else if j < m - 1 {
          assert ReadsAfter(cs, j, m - 1);
        }
      }
    }
  }

  /** An execution that has committed exactly `cs[..n]` and is between rounds. */
  ghost predicate Realized(w: World, cs: seq<Commit>, n: nat, clock: int) {
    && n <= |cs| && w.trace == cs[..n] && w.phase.Idle? && w.sup.WellFormed()
    && (w.clock == clock || exists j :: 0 <= j < n && w.clock == cs[j].now)
  }

  function AllReported(oks: seq<bool>): (results: seq<Option<bool>>)
    ensures Complete(results) && Values(results) == oks
  {
    seq(|oks|, i requires 0 <= i < |oks| => Some(oks[i]))
  }

  /** A round begins and every probe reports. */
  lemma BeginAndProbe(w: World, now: int, oks: seq<bool>, holdDown: int) returns (events: seq<Event>)
    requires w.phase.Idle? && w.sup.WellFormed() && w.clock <= now && |oks| == |w.sup.eps|
    ensures Execute(w, events, holdDown) == Some(w.(clock := now, phase := Probing(now, AllReported(oks))))
  {
    hide Execute;
    var begun := Step(w, RoundBegin(now), holdDown);
    ExecuteOne(w, RoundBegin(now), holdDown);
    var probes := ProbeAll(begun, oks, |oks|, holdDown);
    assert AllReported(oks) == seq(|oks|, i requires 0 <= i < |oks| => if i < |oks| then Some(oks[i]) else None);
    ExecuteConcat(w, [RoundBegin(now)], probes, holdDown);
    events := [RoundBegin(now)] + probes;
  }

  /** Commits `cs[m..n+1]`, a round preceded by filter calls that overtook it, on top of `cs[..m]`. */
  lemma OvertakenRound(w: World, cs: seq<Commit>, m: nat, n: nat, clock: int, holdDown: int)
    returns (events: seq<Event>, v: World)
    requires WellTimed(cs) && m <= n < |cs| && cs[n].Round? && Realized(w, cs, m, clock)
    requires |cs[n].oks| == |w.sup.eps| && clock <= cs[n].now
    requires forall j :: m <= j < n ==> cs[j].Filter? && cs[j].now > cs[n].now
    requires forall j :: 0 <= j < m ==> cs[j].now <= cs[n].now
    ensures Execute(w, events, holdDown) == Some(v) && Realized(v, cs, n + 1, clock) && |v.sup.eps| == |w.sup.eps|
  {
    hide Apply, Execute, AllReported;
    var now, oks := cs[n].now, cs[n].oks;
    var begin := BeginAndProbe(w, now, oks, holdDown);
    var probed := w.(clock := now, phase := Probing(now, AllReported(oks)));
    forall j, k | m <= j < k < n ensures cs[j].now <= cs[k].now {
      assert ReadsAfter(cs, j, k);
    }
    var filters := FilterAll(probed, cs[m..n], holdDown);
    var overtaken := AfterFilters(probed, cs[m..n], holdDown);
    ReportedSize(oks);
    ExecuteOne(overtaken, RoundCommit, holdDown);
    v := Step(overtaken, RoundCommit, holdDown);
    assert cs[..n + 1] == cs[..m] + cs[m..n] + [cs[n]];
    ExecuteConcat(w, begin, filters, holdDown);
    ExecuteConcat(w, begin + filters, [RoundCommit], holdDown);
    events := begin + filters + [RoundCommit];
    assert v.clock == if m < n then cs[n - 1].now else now;
  }

  lemma ReportedSize(oks: seq<bool>)
    ensures |AllReported(oks)| == |oks|
  {
  }

  lemma {:induction false} Realize(r: Run, n: nat, clock: int) returns (events: seq<Event>, w: World)
    requires r.WellFormed() && WellTimed(r.commits) && n <= |r.commits|
    requires forall j :: 0 <= j < |r.commits| ==> clock <= r.commits[j].now
    ensures Execute(Start(r.endpoints, clock), events, r.holdDown) == Some(w)
    ensures Realized(w, r.commits, n, clock) && |w.sup.eps| == |r.endpoints|
  {
    hide Apply;
    var start := Start(r.endpoints, clock);
    if n == 0 {
      events, w := [], start;
    } else if r.commits[n - 1].Filter? {
      var c := r.commits[n - 1];
      var before, v := Realize(r, n - 1, clock);
      forall j | 0 <= j < n - 1 ensures r.commits[j].now <= c.now {
        assert ReadsAfter(r.commits, j, n - 1);
      }
      var e := SetFilter(c.cluster, c.now);
      ExecuteOne(v, e, r.holdDown);
      ExecuteConcat(start, before, [e], r.holdDown);
      events, w := before + [e], Step(v, e, r.holdDown);
      assert r.commits[..n] == r.commits[..n - 1] + [c];
      assert w.clock == r.commits[n - 1].now;
    } else {
      var b := BeginPoint(r.commits, n - 1, n - 1);
      var before, v := Realize(r, b, clock);
      var after, u := OvertakenRound(v, r.commits, b, n - 1, clock, r.holdDown);
      ExecuteConcat(start, before, after, r.holdDown);
      events, w := before + after, u;
    }
  }

  /** Every well-timed run is some interleaving, so the clock order of runs is exactly what the lock permits. */
  lemma RunsAreInterleavings(r: Run, clock: int) returns (events: seq<Event>, w: World)
    requires r.WellFormed() && WellTimed(r.commits)
    requires forall j :: 0 <= j < |r.commits| ==> clock <= r.commits[j].now
    ensures Execute(Start(r.endpoints, clock), events, r.holdDown) == Some(w)
    ensures w.trace == r.commits && w.phase.Idle? && w.sup == r.At(|r.commits|) && w.log == r.Log(|r.commits|)
  {
    events, w := Realize(r, |r.commits|, clock);
    assert r.commits[..|r.commits|] == r.commits;
    InterleavingsAreRuns(r.endpoints, clock, r.holdDown, events);
  }
}
