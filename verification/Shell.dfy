/** How a configuration, written down or discovered, becomes the Supervisor's priority order. */
module Shell {
  import opened Wrappers
  import opened Transport
  import opened Supervision
  import opened Runs
  import Discovery

  const DIRECT := "direct"
  const DEFAULT_CLUSTER := "default"

  datatype DCConfig = DCConfig(
    name: string, displayName: string, kind: string, addr: string,
    sshAddr: string, user: string, keyPath: string, knownHostsPath: string,
    webUIAddr: string, loomAddr: string)

  /** The legacy flat shape, which is also what a backend is built from. */
  datatype EndpointConfig = EndpointConfig(
    name: string, displayName: string, kind: string, addr: string,
    sshAddr: string, user: string, keyPath: string, knownHostsPath: string,
    webUIAddr: string, loomAddr: string)

  datatype ClusterConfig = ClusterConfig(name: string, displayName: string, dcs: seq<DCConfig>)

  datatype Config = Config(clusters: seq<ClusterConfig>, endpoints: seq<EndpointConfig>)

  datatype ShellError =
    | LookupFailed
    | NoTargets
    | NothingConfigured
    | ClusterWithoutDCs(cluster: string)
    | BadBackend(cluster: string, dc: string)

  /** Building a transport may fail; which ones succeed is an input. */
  type Builder = EndpointConfig -> Option<BackendId>

  // ----- One cluster list -----

  function Wrap(ep: EndpointConfig): DCConfig {
    DCConfig(ep.name, ep.displayName, ep.kind, ep.addr, ep.sshAddr, ep.user, ep.keyPath,
             ep.knownHostsPath, ep.webUIAddr, ep.loomAddr)
  }

  /** Legacy endpoints come first, as one cluster; without any the clusters stand as they are. */
  ghost predicate Normalises(c: Config, clusters: seq<ClusterConfig>) {
    if c.endpoints == [] then clusters == c.clusters
    else
      && |clusters| == 1 + |c.clusters| && clusters[1..] == c.clusters
      && clusters[0].name == "default" && clusters[0].displayName == ""
      && |clusters[0].dcs| == |c.endpoints|
      && forall i :: 0 <= i < |c.endpoints| ==> clusters[0].dcs[i] == Wrap(c.endpoints[i])
  }

  method NormalisedClusters(c: Config) returns (clusters: seq<ClusterConfig>)
    ensures Normalises(c, clusters)
  {
    if |c.endpoints| == 0 {
      return c.clusters;
    }
    var dcs: seq<DCConfig> := [];
    for i := 0 to |c.endpoints|
      invariant |dcs| == i && forall k :: 0 <= k < i ==> dcs[k] == Wrap(c.endpoints[k])
    {
      dcs := dcs + [Wrap(c.endpoints[i])];
    }
    return [ClusterConfig(DEFAULT_CLUSTER, "", dcs)] + c.clusters;
  }

  // ----- Flattening -----

  /** A DC with the cluster it belongs to. */
  datatype Placed = Placed(cluster: ClusterConfig, dc: DCConfig)

  function Column(cl: ClusterConfig, n: nat): seq<Placed>
    requires n <= |cl.dcs|
  {
    seq(n, i requires 0 <= i < n => Placed(cl, cl.dcs[i]))
  }

  /** Every DC of every cluster, in declaration order. */
  function Flat(clusters: seq<ClusterConfig>): seq<Placed> {
    if clusters == [] then []
    else
      var last := clusters[|clusters| - 1];
      Flat(clusters[..|clusters| - 1]) + Column(last, |last.dcs|)
  }

  lemma FlatStep(clusters: seq<ClusterConfig>, i: nat)
    requires i < |clusters|
    ensures Flat(clusters[..i + 1]) == Flat(clusters[..i]) + Column(clusters[i], |clusters[i].dcs|)
  {
    assert clusters[..i + 1][..i] == clusters[..i];
  }

  /** What `EachDC` passes to its callback: entry `i` is the DC reported with global index `i`. */
  method EachDC(c: Config) returns (clusters: seq<ClusterConfig>, visits: seq<(Placed, nat)>)
    ensures Normalises(c, clusters)
    ensures |visits| == |Flat(clusters)|
    ensures forall i :: 0 <= i < |visits| ==> visits[i] == (Flat(clusters)[i], i)
  {
    clusters := NormalisedClusters(c);
    visits := [];
    var idx := 0;
    for i := 0 to |clusters|
      invariant idx == |visits| == |Flat(clusters[..i])|
      invariant forall k :: 0 <= k < |visits| ==> visits[k] == (Flat(clusters[..i])[k], k)
    {
      FlatStep(clusters, i);
      ghost var before := Flat(clusters[..i]);
      var cl := clusters[i];
      for j := 0 to |cl.dcs|
        invariant idx == |visits| == |before| + j
        invariant forall k :: 0 <= k < |visits| ==> visits[k] == ((before + Column(cl, j))[k], k)
      {
        visits := visits + [(Placed(cl, cl.dcs[j]), idx)];
        idx := idx + 1;
      }
    }
    assert clusters[..|clusters|] == clusters;
  }

  function ToLegacy(dc: DCConfig): EndpointConfig {
    EndpointConfig(dc.name, dc.displayName, dc.kind, dc.addr, dc.sshAddr, dc.user, dc.keyPath,
                   dc.knownHostsPath, dc.webUIAddr, "")
  }

  /** A wrapped legacy endpoint is built from what was configured, save the loom address. */
  lemma WrappedBuildsAsConfigured(ec: EndpointConfig)
    ensures ToLegacy(Wrap(ec)) == ec.(loomAddr := "")
    ensures var dc := Wrap(ec);
            && dc.name == ec.name && dc.displayName == ec.displayName && dc.kind == ec.kind && dc.addr == ec.addr
            && dc.sshAddr == ec.sshAddr && dc.user == ec.user && dc.keyPath == ec.keyPath
            && dc.knownHostsPath == ec.knownHostsPath && dc.webUIAddr == ec.webUIAddr && dc.loomAddr == ec.loomAddr
  {
  }

  /** The Supervisor's record for a DC. */
  function EndpointFor(p: Placed, b: BackendId): Endpoint {
    Endpoint(p.dc.name, p.dc.displayName, p.cluster.name,
             if p.cluster.displayName == "" then p.cluster.name else p.cluster.displayName, b)
  }

  /** A DC is announced by its own label under its cluster's, names standing in for missing labels. */
  lemma EndpointReads(p: Placed, b: BackendId)
    ensures var ep := EndpointFor(p, b);
            && ep.name == p.dc.name && ep.cluster == p.cluster.name && ep.backend == b
            && ep.FullLabel() ==
                 (if p.cluster.displayName != "" then p.cluster.displayName + " · "
                  else if p.cluster.name != "" then p.cluster.name + " · " else "")
                 + (if p.dc.displayName != "" then p.dc.displayName else p.dc.name)
  {
    FullLabelReads(EndpointFor(p, b));
  }

  predicate Buildable(placed: seq<Placed>, build: Builder) {
    forall i :: 0 <= i < |placed| ==> build(ToLegacy(placed[i].dc)).Some?
  }

  function EndpointsFor(placed: seq<Placed>, build: Builder): seq<Endpoint>
    requires Buildable(placed, build)
  {
    seq(|placed|, i requires 0 <= i < |placed| => EndpointFor(placed[i], build(ToLegacy(placed[i].dc)).value))
  }

  predicate Inhabited(clusters: seq<ClusterConfig>) {
    forall i :: 0 <= i < |clusters| ==> clusters[i].dcs != []
  }

  /** Everything before DC `j` of cluster `i` is in order. */
  predicate SoundUpTo(clusters: seq<ClusterConfig>, i: nat, j: nat, build: Builder)
    requires i < |clusters| && j <= |clusters[i].dcs|
  {
    Inhabited(clusters[..i]) && Buildable(Flat(clusters[..i]) + Column(clusters[i], j), build)
  }

  /** The error names the first thing wrong with the configuration. */
  ghost predicate FirstOffence(clusters: seq<ClusterConfig>, build: Builder, e: ShellError) {
    match e
    case NothingConfigured => clusters == []
    case ClusterWithoutDCs(name) =>
      exists i: nat :: i < |clusters| && clusters[i].dcs == [] && clusters[i].name == name
                       && SoundUpTo(clusters, i, 0, build)
    case BadBackend(name, dc) =>
      exists i: nat, j: nat :: i < |clusters| && j < |clusters[i].dcs| && SoundUpTo(clusters, i, j, build)
                               && build(ToLegacy(clusters[i].dcs[j])).None?
                               && clusters[i].name == name && clusters[i].dcs[j].name == dc
    case _ => false
  }

  /** Something named as wrong is wrong: the configuration could not have been built. */
  lemma OffenceIsReal(clusters: seq<ClusterConfig>, build: Builder, e: ShellError)
    requires FirstOffence(clusters, build, e)
    ensures clusters == [] || !Inhabited(clusters) || !Buildable(Flat(clusters), build)
  {
    hide Flat, SoundUpTo;
    if e.BadBackend? {
      var i: nat, j: nat :| i < |clusters| && j < |clusters[i].dcs| && build(ToLegacy(clusters[i].dcs[j])).None?;
      FlatPrefix(clusters, i + 1);
      FlatStep(clusters, i);
      assert Flat(clusters)[|Flat(clusters[..i])| + j] == Column(clusters[i], |clusters[i].dcs|)[j];
    }
  }

  lemma OneMore(before: seq<Placed>, cl: ClusterConfig, j: nat, build: Builder)
    requires j < |cl.dcs| && Buildable(before + Column(cl, j), build) && build(ToLegacy(cl.dcs[j])).Some?
    ensures Buildable(before + Column(cl, j + 1), build)
    ensures EndpointsFor(before + Column(cl, j + 1), build) ==
            EndpointsFor(before + Column(cl, j), build)
            + [EndpointFor(Placed(cl, cl.dcs[j]), build(ToLegacy(cl.dcs[j])).value)]
  {
    assert before + Column(cl, j + 1) == before + Column(cl, j) + [Placed(cl, cl.dcs[j])];
  }

  /** The endpoint-building loops of `New`. */
  method BuildEndpoints(c: Config, build: Builder)
    returns (clusters: seq<ClusterConfig>, r: Result<seq<Endpoint>, ShellError>)
    ensures Normalises(c, clusters)
    ensures r.Err? ==> FirstOffence(clusters, build, r.error)
    ensures r.Ok? ==>
              && clusters != [] && Inhabited(clusters) && Buildable(Flat(clusters), build)
              && r.value == EndpointsFor(Flat(clusters), build)
  {
    hide Flat, Column, Buildable, EndpointsFor, Normalises;
    clusters := NormalisedClusters(c);
    if |clusters| == 0 {
      return clusters, Err(NothingConfigured);
    }
    var eps: seq<Endpoint> := [];
    NothingYet(clusters, build);
    for i := 0 to |clusters|
      invariant Inhabited(clusters[..i]) && Buildable(Flat(clusters[..i]), build)
      invariant eps == EndpointsFor(Flat(clusters[..i]), build)
    {
      var cl := clusters[i];
      ghost var before := Flat(clusters[..i]);
      FlatStep(clusters, i);
      ColumnStarts(before, cl);
      if |cl.dcs| == 0 {
        assert SoundUpTo(clusters, i, 0, build);
        return clusters, Err(ClusterWithoutDCs(cl.name));
      }
      var clusterLabel := cl.displayName;
      if clusterLabel == "" {
        clusterLabel := cl.name;
      }
      for j := 0 to |cl.dcs|
        invariant Buildable(before + Column(cl, j), build)
        invariant eps == EndpointsFor(before + Column(cl, j), build)
      {
        var dc := cl.dcs[j];
        var b := build(ToLegacy(dc));
        if b.None? {
          assert SoundUpTo(clusters, i, j, build);
          return clusters, Err(BadBackend(cl.name, dc.name));
        }
        OneMore(before, cl, j, build);
        eps := eps + [Endpoint(dc.name, dc.displayName, cl.name, clusterLabel, b.value)];
      }
    }
    assert clusters[..|clusters|] == clusters;
    return clusters, Ok(eps);
  }

  lemma NothingYet(clusters: seq<ClusterConfig>, build: Builder)
    ensures Buildable(Flat(clusters[..0]), build) && EndpointsFor(Flat(clusters[..0]), build) == []
  {
  }

  lemma ColumnStarts(before: seq<Placed>, cl: ClusterConfig)
    ensures before + Column(cl, 0) == before
  {
  }

  /** The flat list up to a cluster is a prefix of the whole flat list. */
  lemma {:induction false} FlatPrefix(clusters: seq<ClusterConfig>, i: nat)
    requires i <= |clusters|
    ensures Flat(clusters[..i]) <= Flat(clusters)
    decreases |clusters| - i
  {
    if i < |clusters| {
      FlatPrefix(clusters, i + 1);
      FlatStep(clusters, i);
    } else {
      assert clusters[..i] == clusters;
    }
  }

  /** DC `j` of cluster `i` stands after every DC of the clusters before it and the `j` before it in its own. */
  lemma FlatIsDeclarationOrder(clusters: seq<ClusterConfig>, i: nat, j: nat)
    requires i < |clusters| && j < |clusters[i].dcs|
    ensures |Flat(clusters[..i + 1])| == |Flat(clusters[..i])| + |clusters[i].dcs|
    ensures |Flat(clusters[..i])| + j < |Flat(clusters)|
    ensures Flat(clusters)[|Flat(clusters[..i])| + j] == Placed(clusters[i], clusters[i].dcs[j])
    ensures Flat(clusters[..0]) == []
  {
    FlatPrefix(clusters, i + 1);
    FlatStep(clusters, i);
    assert Flat(clusters)[|Flat(clusters[..i])| + j] == Column(clusters[i], |clusters[i].dcs|)[j];
  }

  // ----- Discovery -----

  function Decimal(n: nat): string {
    if n < 10 then [['0', '1', '2', '3', '4', '5', '6', '7', '8', '9'][n]]
    else Decimal(n / 10) + Decimal(n % 10)
  }

  /** "host:port", with the host in brackets when it has a colon itself. */
  function JoinHostPort(host: string, port: string): string {
    if ':' in host then "[" + host + "]:" + port else host + ":" + port
  }

  function DigitValue(c: char): int {
    c as int - '0' as int
  }

  /** The number a digit string stands for. */
  function Parsed(s: string): int {
    if s == "" then 0 else Parsed(s[..|s| - 1]) * 10 + DigitValue(s[|s| - 1])
  }

  lemma {:induction false} DecimalReadsBack(n: nat)
    ensures Parsed(Decimal(n)) == n && ':' !in Decimal(n) && Decimal(n) != ""
    ensures forall k :: 0 <= k < |Decimal(n)| ==> '0' <= Decimal(n)[k] <= '9'
    ensures n > 0 ==> Decimal(n)[0] != '0'
  {
    if n < 10 {
      assert Parsed("") == 0;
    } else {
      DecimalReadsBack(n / 10);
      var front, last := Decimal(n / 10), Decimal(n % 10);
      assert |last| == 1 && DigitValue(last[0]) == n % 10;
      assert (front + last)[..|front|] == front;
    }
  }

  lemma LastColon(a: string, p: string, b: string, q: string)
    requires a + ":" + p == b + ":" + q && ':' !in p
    ensures |b| <= |a|
  {
    var s := a + ":" + p;
    assert (b + ":" + q)[|b|] == ':';
    assert forall k :: |a| < k < |s| ==> s[k] == p[k - |a| - 1];
  }

  lemma SplitAtLastColon(a: string, p: string, b: string, q: string)
    requires a + ":" + p == b + ":" + q && ':' !in p && ':' !in q
    ensures a == b && p == q
  {
    LastColon(a, p, b, q);
    LastColon(b, q, a, p);
    assert (a + ":" + p)[..|a|] == a && (b + ":" + q)[..|b|] == b;
    assert (a + ":" + p)[|a| + 1..] == p && (b + ":" + q)[|b| + 1..] == q;
  }

  function HostPart(host: string): string {
    if ':' in host then "[" + host + "]" else host
  }

  lemma HostPartIdentifies(h: string, h': string)
    requires HostPart(h) == HostPart(h')
    ensures h == h'
  {
    assert ("[" + h + "]")[1..|h| + 1] == h && ("[" + h' + "]")[1..|h'| + 1] == h';
    assert ':' in h ==> ':' in "[" + h + "]";
    assert ':' in h' ==> ':' in "[" + h' + "]";
  }

  lemma JoinIsHostPart(host: string, port: string)
    ensures JoinHostPort(host, port) == HostPart(host) + ":" + port
  {
    assert "[" + host + "]:" + port == "[" + host + "]" + ":" + port;
  }

  /** Different targets are dialled at different addresses, IPv6 literals included. */
  lemma AddressIdentifies(h: string, p: nat, h': string, p': nat)
    requires JoinHostPort(h, Decimal(p)) == JoinHostPort(h', Decimal(p'))
    ensures h == h' && p == p'
  {
    hide Decimal, Parsed, HostPart, JoinHostPort;
    DecimalReadsBack(p);
    DecimalReadsBack(p');
    JoinIsHostPart(h, Decimal(p));
    JoinIsHostPart(h', Decimal(p'));
    SplitAtLastColon(HostPart(h), Decimal(p), HostPart(h'), Decimal(p'));
    HostPartIdentifies(h, h');
  }

  function DiscoveredConfig(t: Discovery.Target): EndpointConfig {
    EndpointConfig(t.name, "", DIRECT, JoinHostPort(t.host, Decimal(t.port)), "", "", "", "", "", "")
  }

  /** `addr` is the host, in brackets if it has a colon itself, a colon, and the port in plain digits. */
  ghost predicate DialsAt(addr: string, host: string, port: nat) {
    exists d: string :: NumberFor(d, port) && addr == (if ':' in host then "[" + host + "]" else host) + ":" + d
  }

  predicate NumberFor(d: string, n: nat) {
    && Parsed(d) == n && d != "" && (n > 0 ==> d[0] != '0')
    && forall k :: 0 <= k < |d| ==> '0' <= d[k] <= '9'
  }

  /** A direct endpoint for the target, named after it and dialling its host and port. */
  ghost predicate DirectTo(ec: EndpointConfig, t: Discovery.Target) {
    && ec.kind == "direct" && ec.name == t.name && DialsAt(ec.addr, t.host, t.port)
    && ec.displayName == ec.sshAddr == ec.user == ec.keyPath == ec.knownHostsPath == ec.webUIAddr == ec.loomAddr == ""
  }

  lemma DiscoveredIsDirect(t: Discovery.Target)
    ensures DirectTo(DiscoveredConfig(t), t)
  {
    hide Decimal, Parsed, JoinHostPort;
    DecimalReadsBack(t.port);
    JoinIsHostPart(t.host, Decimal(t.port));
    assert NumberFor(Decimal(t.port), t.port);
  }

  /** The base configuration's endpoints are ignored and replaced; its clusters stay, behind. */
  method Discover<E>(lookup: Result<seq<Discovery.SrvRecord>, E>, base: Config, build: Builder)
    returns (clusters: seq<ClusterConfig>, r: Result<seq<Endpoint>, ShellError>)
    ensures lookup.Err? ==> r == Err(LookupFailed)
    ensures lookup.Ok? && lookup.value == [] ==> r == Err(NoTargets)
    ensures r.Ok? ==>
              && lookup.Ok? && lookup.value != []
              && FromRecords(r.value, Discovery.Sort(Discovery.TargetsOf(lookup.value)), build)
    ensures lookup.Ok? && lookup.value != [] && base.clusters == [] && BuildsDirect(build) ==>
              r.Ok? && |r.value| == |lookup.value|
  {
    hide Flat, Buildable, EndpointsFor, BuildsDirect, FirstOffence, FromRecords, Inhabited, Wrap, DiscoveredConfig;
    hide Discovery.Sort, Discovery.TargetsOf;
    var found := Discovery.Srv(lookup);
    if found.Err? {
      return [], Err(LookupFailed);
    }
    var targets := found.value;
    CountTargets(lookup.value);
    if |targets| == 0 {
      return [], Err(NoTargets);
    }
    var endpoints := ConfigureTargets(targets);
    clusters, r := BuildEndpoints(base.(endpoints := endpoints), build);
    DiscoveredComeFirst(clusters, targets, base, build);
    if r.Err? {
      OffenceIsReal(clusters, build, r.error);
    }
  }

  /** Each target behind a direct transport. */
  method ConfigureTargets(targets: seq<Discovery.Target>) returns (endpoints: seq<EndpointConfig>)
    ensures |endpoints| == |targets|
    ensures forall k :: 0 <= k < |targets| ==> endpoints[k] == DiscoveredConfig(targets[k])
  {
    endpoints := [];
    for i := 0 to |targets|
      invariant |endpoints| == i && forall k :: 0 <= k < i ==> endpoints[k] == DiscoveredConfig(targets[k])
    {
      var t := targets[i];
      endpoints := endpoints + [EndpointConfig(t.name, "", DIRECT, JoinHostPort(t.host, Decimal(t.port)),
                                               "", "", "", "", "", "")];
    }
  }

  lemma CountTargets(recs: seq<Discovery.SrvRecord>)
    ensures |Discovery.Sort(Discovery.TargetsOf(recs))| == |recs|
  {
    Discovery.SortIsStable(Discovery.TargetsOf(recs));
  }

  /** Direct transports need an address and nothing else. */
  ghost predicate BuildsDirect(build: Builder) {
    forall ec: EndpointConfig :: ec.kind == DIRECT && ec.addr != "" ==> build(ec).Some?
  }

  /** The endpoint list begins with the discovered targets, in their order, each dialling its own address. */
  ghost predicate FromRecords(eps: seq<Endpoint>, targets: seq<Discovery.Target>, build: Builder) {
    && |targets| <= |eps|
    && forall i :: 0 <= i < |targets| ==>
         eps[i].name == targets[i].name && eps[i].displayName == ""
         && eps[i].cluster == "default" && eps[i].clusterLabel == "default"
         && build(DiscoveredConfig(targets[i])) == Some(eps[i].backend)
  }

  lemma DiscoveredComeFirst(clusters: seq<ClusterConfig>, targets: seq<Discovery.Target>, base: Config, build: Builder)
    requires targets != [] && |clusters| == 1 + |base.clusters| && clusters[1..] == base.clusters
    requires clusters[0].name == DEFAULT_CLUSTER && clusters[0].displayName == ""
    requires |clusters[0].dcs| == |targets|
    requires forall i :: 0 <= i < |targets| ==> clusters[0].dcs[i] == Wrap(DiscoveredConfig(targets[i]))
    ensures |Flat(clusters)| >= |targets|
    ensures forall i :: 0 <= i < |targets| ==>
              Flat(clusters)[i] == Placed(clusters[0], Wrap(DiscoveredConfig(targets[i])))
    ensures base.clusters == [] && BuildsDirect(build) ==>
              Inhabited(clusters) && |Flat(clusters)| == |targets| && Buildable(Flat(clusters), build)
    ensures Buildable(Flat(clusters), build) ==>
              && FromRecords(EndpointsFor(Flat(clusters), build), targets, build)
              && |EndpointsFor(Flat(clusters), build)| == |Flat(clusters)|
  {
    FlatPrefix(clusters, 1);
    FlatStep(clusters, 0);
    assert clusters[..0] == [] && Flat([]) == [];
    var col := Column(clusters[0], |clusters[0].dcs|);
    assert Flat(clusters[..1]) == col;
    forall i | 0 <= i < |targets| ensures Flat(clusters)[i] == Placed(clusters[0], Wrap(DiscoveredConfig(targets[i]))) {
      assert Flat(clusters)[i] == col[i];
    }
    if base.clusters == [] {
      assert clusters[..1] == clusters;
    }
    forall i | 0 <= i < |targets| ensures ToLegacy(Wrap(DiscoveredConfig(targets[i]))).addr != "" {
    }
  }

  // ----- What priority means on the first round -----

  /** From a cold start the first round takes the most preferred endpoint that answers, at once. */
  lemma FirstRound(r: Run)
    requires r.WellFormed() && |r.commits| > 0 && r.commits[0].Round?
    ensures var a := r.At(1).active;
            && (a >= 0 ==> r.commits[0].oks[a])
            && (forall j :: 0 <= j < |r.endpoints| && r.commits[0].oks[j] ==> 0 <= a <= j)
  {
    var s := r.Seen(0);
    assert r.At(0) == Initial(r.endpoints);
    forall i | 0 <= i < |s.eps| ensures s.eps[i].Selectable() <==> r.commits[0].oks[i] {
    }
    ChoiceIsTheRule(s, r.commits[0].now, r.holdDown, r.At(1).active);
  }

  /**
   End to end: the discovered endpoints are DNS's records rearranged, and if any of them answers
   the first round, the one selected comes from a record of the least priority among those that
   answer, the earliest in the dictionary among several; it is named by the record's first
   label, and dialling it dials the record's host and port.
   */
  lemma FirstRoundFollowsDns(recs: seq<Discovery.SrvRecord>, build: Builder, r: Run) returns (order: seq<nat>)
    requires r.WellFormed() && |r.commits| > 0 && r.commits[0].Round?
    requires FromRecords(r.endpoints, Discovery.Sort(Discovery.TargetsOf(recs)), build)
    ensures var targets := Discovery.Sort(Discovery.TargetsOf(recs));
            var a := r.At(1).active;
            && Discovery.InPriorityOrder(recs, targets, order)
            && ((exists j :: 0 <= j < |recs| && r.commits[0].oks[j]) ==>
                  && 0 <= a < |recs| && r.commits[0].oks[a]
                  && r.At(1).ActiveEndpoint().Some?
                  && r.At(1).ActiveEndpoint().value.name == targets[a].name
                  && build(DiscoveredConfig(targets[a])) == Some(r.At(1).ActiveEndpoint().value.backend)
                  && DirectTo(DiscoveredConfig(targets[a]), targets[a])
                  && forall j :: 0 <= j < |recs| && r.commits[0].oks[j] ==>
                       !Discovery.Ahead(recs[order[j]], targets[j].name, recs[order[a]], targets[a].name))
  {
    hide Run.At, Discovery.Sort, Discovery.TargetsOf, DiscoveredConfig, DirectTo, Discovery.Ahead, Discovery.Describes;
    order := Discovery.SortedByPriority(recs);
    var targets := Discovery.Sort(Discovery.TargetsOf(recs));
    var a := r.At(1).active;
    FirstRound(r);
    if j :| 0 <= j < |recs| && r.commits[0].oks[j] {
      assert r.At(1).eps[a].ep == r.endpoints[a];
      DiscoveredIsDirect(targets[a]);
    }
  }

  /** A first round that finds each discovered datacenter as `answers` says. */
  ghost predicate FirstRoundFinds(r: Run, targets: seq<Discovery.Target>, answers: Discovery.Target -> bool) {
    && r.WellFormed() && |r.commits| > 0 && r.commits[0].Round?
    && |targets| <= |r.endpoints|
    && forall i :: 0 <= i < |targets| ==> r.commits[0].oks[i] == answers(targets[i])
  }

  /**
   Whatever order DNS returned the records in: with identifying keys, two answers with the
   same records lead to the same endpoint, if the same datacenters answer and at least one does.
   */
  lemma FirstRoundIgnoresDnsOrder(recs: seq<Discovery.SrvRecord>, recs': seq<Discovery.SrvRecord>, build: Builder,
                                  r: Run, r': Run, answers: Discovery.Target -> bool)
    requires multiset(recs) == multiset(recs') && Discovery.KeysIdentify(Discovery.TargetsOf(recs))
    requires FromRecords(r.endpoints, Discovery.Sort(Discovery.TargetsOf(recs)), build)
    requires FromRecords(r'.endpoints, Discovery.Sort(Discovery.TargetsOf(recs')), build)
    requires FirstRoundFinds(r, Discovery.Sort(Discovery.TargetsOf(recs)), answers)
    requires FirstRoundFinds(r', Discovery.Sort(Discovery.TargetsOf(recs')), answers)
    requires exists rec :: rec in recs && answers(Discovery.TargetOf(rec))
    ensures r.At(1).ActiveEndpoint().Some? && r.At(1).ActiveEndpoint() == r'.At(1).ActiveEndpoint()
  {
    hide Run.At, Discovery.Sort, DiscoveredConfig, Discovery.KeysIdentify;
    Discovery.OrderIndependence(recs);
    var targets := Discovery.Sort(Discovery.TargetsOf(recs));
    assert targets == Discovery.Sort(Discovery.TargetsOf(recs'));
    var i := AnsweringTarget(recs, answers);
    FirstRound(r);
    FirstRound(r');
    var a, a' := r.At(1).active, r'.At(1).active;
    assert 0 <= a <= i && 0 <= a' <= i;
    assert a == a';
    assert r.At(1).eps[a].ep == r.endpoints[a] == r'.endpoints[a] == r'.At(1).eps[a].ep;
  }

  lemma AnsweringTarget(recs: seq<Discovery.SrvRecord>, answers: Discovery.Target -> bool) returns (i: nat)
    requires exists rec :: rec in recs && answers(Discovery.TargetOf(rec))
    ensures i < |Discovery.Sort(Discovery.TargetsOf(recs))| && answers(Discovery.Sort(Discovery.TargetsOf(recs))[i])
  {
    hide Discovery.Sort;
    var ts := Discovery.TargetsOf(recs);
    var k :| 0 <= k < |recs| && answers(Discovery.TargetOf(recs[k]));
    Discovery.SortIsStable(ts);
    assert ts[k] in multiset(ts);
    i :| 0 <= i < |Discovery.Sort(ts)| && Discovery.Sort(ts)[i] == ts[k];
  }
}
