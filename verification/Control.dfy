/**
 The control channel between the tray process and the WebView process: a server that
 remembers the last switch, and a client that polls it and reports changes.
 */
module Control {
  import opened Wrappers
  import opened Transport
  import opened Supervision
  import opened Runs

  datatype Active = Active(name: string, dcLabel: string, cluster: string, clusterLabel: string, allDown: bool)
  {
    function FullLabel(): string {
      Compose(if clusterLabel == "" then cluster else clusterLabel, if dcLabel == "" then name else dcLabel)
    }
  }

  const NOTHING_YET := Active("", "", "", "", false)

  /** What the server remembers of a switch. */
  function Published(sw: Switch): Active {
    Active(sw.toName, if sw.toLabel == "" then sw.toName else sw.toLabel, sw.toCluster, sw.toClusterLabel, sw.allDown)
  }

  /** The server's state after publishing a log of switches in order. */
  function Replay(log: seq<Switch>): Active {
    if log == [] then NOTHING_YET else Published(log[|log| - 1])
  }

  class Server {
    var current: Active
    /** What has been published, in order. */
    ghost var published: seq<Switch>

    ghost predicate Valid()
      reads this
    {
      current == Replay(published)
    }

    constructor ()
      ensures Valid() && published == []
    {
      current := NOTHING_YET;
      published := [];
    }

    method Publish(sw: Switch)
      requires Valid()
      modifies this
      ensures Valid() && published == old(published) + [sw] && current == Replay(published)
    {
      var shown := sw.toLabel;
      if shown == "" {
        shown := sw.toName;
      }
      current := Active(sw.toName, shown, sw.toCluster, sw.toClusterLabel, sw.allDown);
      published := published + [sw];
    }
  }

  // ----- Replay -----

  /** The target half of `a` is the source half of `b`. */
  predicate Follows(a: Switch, b: Switch) {
    && b.fromName == a.toName && b.fromLabel == a.toLabel
    && b.fromCluster == a.toCluster && b.fromClusterLabel == a.toClusterLabel
  }

  predicate Chained(log: seq<Switch>) {
    && (log != [] ==> log[0].fromName == log[0].fromLabel == log[0].fromCluster == log[0].fromClusterLabel == "")
    && forall j :: 0 < j < |log| ==> Follows(log[j - 1], log[j])
  }

  /** The switch announced exactly what the state now holds. */
  predicate Announces(sw: Switch, s: State) {
    match s.ActiveEndpoint()
    case None => sw.allDown && sw.toName == sw.toLabel == sw.toCluster == sw.toClusterLabel == ""
    case Some(ep) =>
      && !sw.allDown && sw.toName == ep.name && sw.toLabel == ep.Label()
      && sw.toCluster == ep.cluster && sw.toClusterLabel == ep.clusterLabel
  }

  lemma ApplyAnnounces(s: State, c: Commit, holdDown: int)
    requires s.WellFormed() && Fits(c, |s.eps|)
    ensures var o := Apply(s, c, holdDown);
            && (o.switch == None ==> o.state.active == s.active)
            && (o.switch.Some? ==> Announces(o.switch.value, o.state))
            && (o.switch.Some? ==> o.switch.value == SwitchTo(Update(s, c), o.state.active))
  {
  }

  /** In commit order every switch starts where the last one ended, and the last one tells where we are. */
  lemma {:induction false} LogIsFaithful(r: Run, k: nat)
    requires r.WellFormed() && k <= |r.commits|
    ensures var log := r.Log(k);
            && Chained(log)
            && (log == [] ==> r.At(k).active == -1)
            && (log != [] ==> Announces(log[|log| - 1], r.At(k)))
  {
    hide Apply;
    if k > 0 {
      LogIsFaithful(r, k - 1);
      ApplyAnnounces(r.At(k - 1), r.commits[k - 1], r.holdDown);
    }
  }

  /** Names and labels shown are those of the endpoint active after commit `m`, empty for none. */
  ghost predicate Names(a: Active, r: Run, m: nat)
    requires r.WellFormed() && m <= |r.commits|
  {
    match r.At(m).ActiveEndpoint()
    case None => a.name == a.dcLabel == a.cluster == a.clusterLabel == "" && a.FullLabel() == ""
    case Some(ep) =>
      && a.name == ep.name && a.dcLabel == ep.Label()
      && a.cluster == ep.cluster && a.clusterLabel == ep.clusterLabel
      && a.FullLabel() == ep.FullLabel()
  }

  /** What is shown is the Supervisor's situation after commit `m`. */
  ghost predicate Shows(a: Active, r: Run, m: nat)
    requires r.WellFormed() && m <= |r.commits|
  {
    Names(a, r, m) && a.allDown == r.At(m).allDown
  }

  /**
   Once anything has been announced, the replayed control state agrees with the Supervisor
   on all-down, on the name and on the label shown; before that it wrongly says "not down".
   */
  lemma {:induction false} ReplayAgrees(r: Run, k: nat)
    requires r.WellFormed() && k <= |r.commits|
    ensures Names(Replay(r.Log(k)), r, k)
    ensures Shows(Replay(r.Log(k)), r, k) <==> r.Log(k) != []
  {
    hide Run.At, Run.Log;
    LogIsFaithful(r, k);
    ConsistentAt(r, k);
  }

  /** Every non-empty prefix of the announcements was the whole log at some earlier commit. */
  lemma {:induction false} PrefixIsAPoint(r: Run, k: nat, j: nat) returns (m: nat)
    requires r.WellFormed() && k <= |r.commits| && 0 < j <= |r.Log(k)|
    ensures 0 < m <= k && r.Log(m) == r.Log(k)[..j] && r.SwitchAt(m - 1) == Some(r.Log(k)[j - 1])
  {
    hide Apply, Run.At;
    if j <= |r.Log(k - 1)| {
      m := PrefixIsAPoint(r, k - 1, j);
      assert r.Log(k)[..j] == r.Log(k - 1)[..j];
    } else {
      m := k;
      assert r.Log(k)[..j] == r.Log(k);
    }
  }

  /** Replaying any non-empty prefix shows the datacenter that was active when its last switch was committed. */
  lemma PrefixReplayAgrees(r: Run, k: nat, j: nat) returns (m: nat)
    requires r.WellFormed() && k <= |r.commits| && 0 < j <= |r.Log(k)|
    ensures 0 < m <= k && r.SwitchAt(m - 1) == Some(r.Log(k)[j - 1])
    ensures Shows(Replay(r.Log(k)[..j]), r, m)
  {
    hide Run.At, Run.Log, Run.SwitchAt;
    m := PrefixIsAPoint(r, k, j);
    ReplayAgrees(r, m);
  }

  // ----- Watch -----

  datatype Poll = Fetched(value: Active) | Failed

  datatype Notice = Notice(prev: Active, cur: Active)

  function Values(polls: seq<Poll>): seq<Active> {
    if polls == [] then []
    else
      var last := |polls| - 1;
      Values(polls[..last]) + (if polls[last].Fetched? then [polls[last].value] else [])
  }

  function Last(first: Active, xs: seq<Active>): Active {
    if xs == [] then first else xs[|xs| - 1]
  }

  /** `xs` with every value that repeats its predecessor left out; `first` precedes it. */
  function Destutter(first: Active, xs: seq<Active>): (ys: seq<Active>)
    ensures Last(first, ys) == Last(first, xs)
  {
    if xs == [] then []
    else
      var ys := Destutter(first, xs[..|xs| - 1]);
      var x := xs[|xs| - 1];
      if x == Last(first, ys) then ys else ys + [x]
  }

  predicate StutterFree(first: Active, ys: seq<Active>) {
    forall j :: 0 <= j < |ys| ==> ys[j] != Last(first, ys[..j])
  }

  /** Reading `xs` can be followed along `first, ys...`: each value either rests or moves on by one, to the end. */
  predicate Stutters(first: Active, xs: seq<Active>, ys: seq<Active>) {
    if xs == [] then ys == []
    else
      var before := xs[..|xs| - 1];
      && xs[|xs| - 1] == Last(first, ys)
      && (Stutters(first, before, ys) || (ys != [] && Stutters(first, before, ys[..|ys| - 1])))
  }

  lemma StutterFreeExtends(first: Active, ys: seq<Active>, y: Active)
    ensures StutterFree(first, ys + [y]) <==> StutterFree(first, ys) && y != Last(first, ys)
  {
    assert forall j :: 0 <= j <= |ys| ==> (ys + [y])[..j] == ys[..j];
    assert ys[..|ys|] == ys;
    assert forall j :: 0 <= j < |ys| ==> (ys + [y])[j] == ys[j];
  }

  /** Destuttering removes the repeats and nothing else: it is the one stutter-free sequence `xs` reads along. */
  lemma {:induction false} DestutterIsExact(first: Active, xs: seq<Active>, ys: seq<Active>)
    ensures StutterFree(first, ys) && Stutters(first, xs, ys) <==> ys == Destutter(first, xs)
  {
    hide StutterFree;
    if xs == [] {
      assert StutterFree(first, []) by { StutterFreeNil(first); }
    } else {
      var before := xs[..|xs| - 1];
      var x := xs[|xs| - 1];
      var d := Destutter(first, before);
      DestutterIsExact(first, before, d);
      DestutterIsExact(first, before, ys);
      StutterFreeExtends(first, d, x);
      assert (d + [x])[..|d|] == d;
      if ys != [] {
        var zs := ys[..|ys| - 1];
        assert ys == zs + [ys[|ys| - 1]];
        StutterFreeExtends(first, zs, ys[|ys| - 1]);
        DestutterIsExact(first, before, zs);
      }
    }
  }

  lemma StutterFreeNil(first: Active)
    ensures StutterFree(first, [])
  {
  }

  /** What `onChange` is told: links of a chain that starts at the zero value. */
  predicate ChainOfNotices(calls: seq<Notice>) {
    forall j: nat :: j < |calls| ==> calls[j].prev != calls[j].cur && calls[j].prev == Before(calls, j)
  }

  /** What was current when notice `j` was given. */
  function Before(calls: seq<Notice>, j: nat): Active
    requires j <= |calls|
  {
    if j == 0 then NOTHING_YET else calls[j - 1].cur
  }

  lemma ChainExtends(calls: seq<Notice>, prev: Active, cur: Active)
    requires ChainOfNotices(calls) && cur != prev && prev == Before(calls, |calls|)
    ensures ChainOfNotices(calls + [Notice(prev, cur)])
    ensures Currents(calls + [Notice(prev, cur)]) == Currents(calls) + [cur]
  {
    var more := calls + [Notice(prev, cur)];
    assert forall j: nat :: j <= |calls| ==> Before(more, j) == Before(calls, j);
  }

  function Currents(calls: seq<Notice>): seq<Active> {
    seq(|calls|, j requires 0 <= j < |calls| => calls[j].cur)
  }

  lemma DestutterStep(first: Active, xs: seq<Active>, x: Active)
    ensures Destutter(first, xs + [x]) ==
            if x == Last(first, xs) then Destutter(first, xs) else Destutter(first, xs) + [x]
  {
    assert (xs + [x])[..|xs|] == xs;
  }

  lemma ValuesStep(polls: seq<Poll>, i: nat)
    requires i < |polls|
    ensures Values(polls[..i + 1]) == Values(polls[..i]) + (if polls[i].Fetched? then [polls[i].value] else [])
  {
    assert polls[..i + 1][..i] == polls[..i];
  }

  lemma WatchStarts()
    ensures ChainOfNotices([]) && Currents([]) == Destutter(NOTHING_YET, [])
  {
  }

  /** The polling loop, given the outcome of each poll until the context ends. */
  method Watch(polls: seq<Poll>) returns (calls: seq<Notice>)
    ensures ChainOfNotices(calls)
    ensures Currents(calls) == Destutter(NOTHING_YET, Values(polls))
    ensures Last(NOTHING_YET, Currents(calls)) == Last(NOTHING_YET, Values(polls))
  {
    hide ChainOfNotices, Currents, Destutter;
    calls := [];
    var prev := NOTHING_YET;
    ghost var xs: seq<Active> := [];
    WatchStarts();
    for i := 0 to |polls|
      invariant ChainOfNotices(calls)
      invariant xs == Values(polls[..i])
      invariant prev == Last(NOTHING_YET, xs) == Before(calls, |calls|)
      invariant Currents(calls) == Destutter(NOTHING_YET, xs)
    {
      ValuesStep(polls, i);
      if polls[i].Failed? {
        continue;
      }
      var cur := polls[i].value;
      DestutterStep(NOTHING_YET, xs, cur);
      if cur != prev {
        ChainExtends(calls, prev, cur);
        calls := calls + [Notice(prev, cur)];
        prev := cur;
      }
      xs := xs + [cur];
    }
    assert polls[..|polls|] == polls;
  }

  /** Each fetched value is a state the server had, and later fetches see no earlier states. */
  predicate Samples(xs: seq<Active>, states: seq<Active>, at: seq<nat>) {
    && |at| == |xs|
    && (forall i :: 0 <= i < |xs| ==> at[i] < |states| && xs[i] == states[at[i]])
    && (forall i, j :: 0 <= i < j < |xs| ==> at[i] <= at[j])
  }

  /** `seen` picks `ys` out of `states`, moving strictly forward and no further than `bound`. */
  predicate Picks(ys: seq<Active>, states: seq<Active>, seen: seq<nat>, bound: nat) {
    && |seen| == |ys|
    && (forall j :: 0 <= j < |seen| ==> 0 < seen[j] <= bound && seen[j] < |states| && ys[j] == states[seen[j]])
    && (forall j, k :: 0 <= j < k < |seen| ==> seen[j] < seen[k])
  }

  lemma PicksOneMore(ys: seq<Active>, states: seq<Active>, seen: seq<nat>, bound: nat, at: nat)
    requires states != [] && states[0] == NOTHING_YET && Picks(ys, states, seen, bound)
    requires bound <= at < |states| && states[at] != Last(NOTHING_YET, ys)
    ensures Picks(ys + [states[at]], states, seen + [at], at)
  {
    if seen != [] {
      assert states[seen[|seen| - 1]] == Last(NOTHING_YET, ys);
    }
  }

  /**
   Even when polls fail or miss switches, the reported values are states the server had, in
   order, none reported twice, and never one from after the last poll.
   */
  lemma {:induction false} WatchSeesASubsequence(xs: seq<Active>, states: seq<Active>, at: seq<nat>)
    returns (seen: seq<nat>)
    requires states != [] && states[0] == NOTHING_YET && Samples(xs, states, at)
    ensures Picks(Destutter(NOTHING_YET, xs), states, seen, if xs == [] then 0 else at[|xs| - 1])
  {
    if xs == [] {
      seen := [];
    } else {
      var last := |xs| - 1;
      var ys := Destutter(NOTHING_YET, xs[..last]);
      seen := WatchSeesASubsequence(xs[..last], states, at[..last]);
      if xs[last] != Last(NOTHING_YET, ys) {
        PicksOneMore(ys, states, seen, if last == 0 then 0 else at[last - 1], at[last]);
        seen := seen + [at[last]];
      }
    }
  }

  // ----- From the Supervisor to the WebView -----

  /** Every state the server goes through while a log is published. */
  function ServerStates(log: seq<Switch>): seq<Active> {
    seq(|log| + 1, j requires 0 <= j <= |log| => Replay(log[..j]))
  }

  /** Right after the commit that announced switch number `n`, counting from 1, `a` is what was active. */
  ghost predicate TrueAtSwitch(a: Active, r: Run, k: nat, n: nat)
    requires r.WellFormed() && k <= |r.commits| && 0 < n <= |r.Log(k)|
  {
    exists m: nat :: 0 < m <= k && r.SwitchAt(m - 1) == Some(r.Log(k)[n - 1]) && Shows(a, r, m)
  }

  /**
   End to end: whatever polls fail or miss, everything the WebView is told was true of the
   Supervisor right after some commit that switched, and it is told in the order of those
   commits, each one once.
   */
  lemma WebViewFollowsSupervisor(r: Run, k: nat, xs: seq<Active>, at: seq<nat>) returns (seen: seq<nat>)
    requires r.WellFormed() && k <= |r.commits| && Samples(xs, ServerStates(r.Log(k)), at)
    ensures |seen| == |Destutter(NOTHING_YET, xs)|
    ensures forall j :: 0 <= j < |seen| ==> 0 < seen[j] <= |r.Log(k)|
    ensures forall i, j :: 0 <= i < j < |seen| ==> seen[i] < seen[j]
    ensures forall j :: 0 <= j < |seen| ==> TrueAtSwitch(Destutter(NOTHING_YET, xs)[j], r, k, seen[j])
  {
    hide Run.At, Run.Log, Run.SwitchAt, Destutter;
    var log := r.Log(k);
    seen := WatchSeesASubsequence(xs, ServerStates(log), at);
    forall j | 0 <= j < |seen|
      ensures TrueAtSwitch(Destutter(NOTHING_YET, xs)[j], r, k, seen[j])
    {
      var m := PrefixReplayAgrees(r, k, seen[j]);
      assert Shows(Replay(log[..seen[j]]), r, m);
    }
  }
}
