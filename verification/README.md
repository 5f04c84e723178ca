# Verified model of weft-app-core

A Dafny model of the library behind the Weft desktop apps: the failover Supervisor that
keeps an app pointed at a healthy datacenter, and what surrounds it: the loopback gateway, the
control channel to the WebView process, the cached SSH client, DNS discovery, configuration,
the keypair assertion and the script templater. `dafny verify dfyconfig.toml` checks it.

## What is modelled

**The Supervisor.** `Supervision` gives the two critical sections (a committed probe round
and a cluster-filter call) as transitions on values, with the selection scan as a recursion
and the rule it implements as a separate predicate. `SupervisorObject` is the object itself:
an array of endpoint records, `active` and `allDown` updated in place by real loops, proved
against those transitions and tied by a ghost history to the run it has been through. `Runs`
defines runs as sequences of critical sections and says what health and the hold-down clock
mean in terms of the committed rounds. `Interleaving` is the step relation the lock permits:
a round reads the clock, probes report in any order, and the round commits, while filter
calls may commit at any moment, also during the probing and then with a later clock than the
round's. It is proved that its executions and the well-timed runs are the same thing, so the
theorems of `Hysteresis` and `ClusterScope` hold of every interleaving, stale round clocks
included.

Premises: one `Run` goroutine, so rounds are sequential; the clock never runs backwards;
the endpoint list is fixed after `New`; HoldDown is positive, because the defaulting in `New`
turns zero into 15 seconds (also for the test that passes 0). Time is an unbounded integer
count of nanoseconds. "Forced" means the previous active endpoint was unhealthy, disabled or
absent when the reselection ran; a "fail-back" is a change while it was healthy and enabled.

**Around it.** `Proxy` is one proxied connection: two copiers, the waiting handler, both
peers and the cancellation, in every interleaving. `Gateway` is routing and shutdown.
`Control` is the server that remembers the last switch and the client that polls it.
`SshClient` is the cached client under concurrent dialers and closers, as an object for the
critical sections and as a step relation for the interleavings. `Discovery`, `Shell` and
`Transport` carry DNS records and configuration into the Supervisor's priority order.

**Assertions.** `Base64` is concrete, including the decoder's skipping of line breaks and its
tolerance of left-over bits. `KeypairAuth` is the JWS signer and verifier. Ed25519 and JSON
are function parameters. What is assumed of Ed25519 is exactly `Correct`: signatures have 64
bytes, public keys 32, and verification under a seed's public key accepts what the private key
made of that seed signed. A private key is 64 bytes, seed then public key, and nothing in the
program checks that its halves belong together; nothing is assumed of one whose halves do not.
Of JSON it is `Faithful`: well-formed UTF-8 text and 64-bit numbers come back unchanged. Clock
and nonce are inputs; the library's count of seconds from year one, which wraps at 64 bits, is
in `Clock`.

**Templates.** `Template` is the substitution loop that rescans its own output.

## Findings

- Fail-backs to one datacenter are spaced by HoldDown, whatever filter calls are made, exactly
  when no less-preferred datacenter belongs to a different, named cluster
  (`Hysteresis.SpacingIsExact`). Otherwise an operator toggling the filter brings two of them to
  one clock reading (`Hysteresis.TogglingDefeatsSpacing`, and with two datacenters
  `Hysteresis.FilterCallsDefeatSpacing`); `Hysteresis.FailBackSpacing` is the law for a stretch
  in which no filter passes the datacenter over.
- Before the first switch the control state says `allDown: false` while the Supervisor says
  all-down; they agree exactly from the first switch on (`Control.ReplayAgrees`).
- A dialer that fails on a client drops whatever is cached by then: its own client exactly when
  nobody has dropped since it connected, otherwise nothing or a newer client
  (`SshClient.DropTakes`). Whenever two dialers share a client, the slower to drop can tear down
  the replacement the other is using (`SshClient.SharersCanCollide`, and from an empty cache
  `SshClient.DropMayHitTheReplacement`).
- The discovered order is independent of the DNS answer's order exactly when no two records that
  make different targets share a priority and a first label (`Discovery.OrderIndependence`); the
  comment on `SRV` promises stable, repeatable ordering without that condition. Two hosts with
  one label in two zones break it (`Discovery.ZonesCollide`, `Discovery.TwoZones`).
- With double-quoted arguments, which is how the program calls it, substitution is positional
  exactly when no argument that fills a mark and has another argument after it contains "%s"
  (`Template.QuotedIsPositional`). In general an argument works in every template exactly when it
  can neither contain nor complete a mark (`Template.SafeIsExact`).
- A private key whose halves do not belong together signs without error; whether the result is
  refused is then up to Ed25519 alone (`KeypairAuth.SignWithAnyKey`, `KeypairAuth.HalvesMatter`).
- Times within two millennia of the largest 64-bit number of seconds wrap in the library's own
  count: an issue time that late is accepted although it lies in the future, an expiry time that
  late is refused as past; up to there the clock checks are exact
  (`KeypairAuth.WindowIsExact`, `KeypairAuth.FarFutureIsAccepted`).

## Model

| member | source | states |
|---|---|---|
| `Supervision.Options.WithDefaults` | failover/supervisor.go:93-106 | every tuning value ends positive, so hold-down is never zero: a positive one is kept, any other becomes 3 s, 15 s and 4 s |
| `Supervision.ScanFrom` | failover/supervisor.go:351-374 | the scan stops at the first index that satisfies a stopping condition, or runs out |
| `Supervision.ChoiceIsTheRule` | failover/supervisor.go:334-374 | the scan with early exits returns the one index allowed by "fail over fast, fail back slow": with a working active endpoint the least of it and the recovered more-preferred ones, otherwise the most preferred selectable one or none |
| `Supervision.ReselectIsIdempotent` | failover/supervisor.go:344-396 | reselecting again at the same clock changes nothing and announces nothing |
| `Supervision.ApplyIsConsistent` | failover/supervisor.go:190-207 | every critical section ends with a selectable choice or none selectable, and allDown mirroring it |
| `SupervisorObject.Supervisor.constructor` | failover/supervisor.go:132-139 | a new Supervisor has nothing selected, all endpoints unknown and enabled, and an empty history |
| `SupervisorObject.Supervisor.ReselectLocked` | failover/supervisor.go:344-396 | the in-place scan leaves the state and returns the switch of the value-level reselection |
| `SupervisorObject.Supervisor.RecordResults` | failover/supervisor.go:305-319 | the results loop performs the probe update on every record |
| `SupervisorObject.Supervisor.RecordFilter` | failover/supervisor.go:192-194 | the filter loop disables exactly the endpoints outside the cluster |
| `SupervisorObject.Supervisor.CommitRound` | failover/supervisor.go:304-331 | a round extends the object's run by exactly that commit, with the state and switch the run prescribes |
| `SupervisorObject.Supervisor.SetClusterFilter` | failover/supervisor.go:190-207 | a filter call extends the object's run by exactly that commit |
| `SupervisorObject.Supervisor.Active` | failover/supervisor.go:143-150 | returns the selected endpoint, and nothing exactly when no endpoint is healthy and enabled |
| `SupervisorObject.Supervisor.Clusters` | failover/supervisor.go:167-179 | the distinct non-empty cluster names, in first-seen order |
| `SupervisorObject.Supervisor.Snapshot` | failover/supervisor.go:211-227 | one status per endpoint in priority order, labelled as the endpoint is, with exactly the active one marked |
| `Runs.HealthIsHistory` | failover/supervisor.go:304-319 | an endpoint is healthy exactly when some round passed it and every round since did, and its clock is the start of that streak |
| `Runs.Run.StreakStart` | failover/supervisor.go:307-318 | the start of the current streak is the earliest round since which all passed |
| `Runs.DisabledIsFilter` | failover/supervisor.go:192-194 | an endpoint is disabled exactly when the last filter call left it outside |
| `Runs.ReachableStates` | failover/supervisor.go:190-332 | after every commit of every well-timed run: the choice is none exactly when nothing enabled is healthy, allDown mirrors it, and no hold-down clock is ahead of the commit's clock |
| `Interleaving.InterleavingsAreRuns` | failover/supervisor.go:190-332 | every interleaving of rounds, probes and filter calls has the state and announcements of a well-timed run |
| `Interleaving.TraceIsWhatHappened` | failover/supervisor.go:190-320 | in every execution the commits are what happened, in order: a filter call is itself; a round has the clock read when it began and, per endpoint, the result the one probe of it reported in between; rounds do not overlap |
| `Interleaving.RoundsCommitTheirProbes` | failover/supervisor.go:287-320 | the commit that ends a round carries exactly the results reported since that round began |
| `Interleaving.RunsAreInterleavings` | failover/supervisor.go:271-332 | every well-timed run, overtaken rounds included, is some interleaving |
| `Interleaving.OvertakenRound` | failover/supervisor.go:287-320 | a round can commit with its early clock after filter calls that carry later ones |
| `Hysteresis.FailBackIsEarned` | failover/supervisor.go:304-374 | a working active endpoint is replaced by b exactly when b is the most preferred enabled one above it that passed a round begun at least HoldDown ago and every round since |
| `Hysteresis.ClockMeasuresStreak` | failover/supervisor.go:305-319 | the hold-down test on the stored clock is the test on the observed streak |
| `Hysteresis.NoWhipsaw` | failover/supervisor.go:338-374 | while the active endpoint works its index never increases |
| `Hysteresis.FlappingIsIgnored` | failover/supervisor.go:3-12 | while the active endpoint works and no preferred one completes a HoldDown streak, nothing changes and nothing is announced |
| `Hysteresis.FailBackBudget` | failover/supervisor.go:344-374 | over any stretch, fail-backs are paid for by the starting index and by n-1 per forced change |
| `Hysteresis.FailBacksAreFew` | failover/supervisor.go:344-374 | over any run, fail-backs number at most n-1 times the forced changes |
| `Hysteresis.RiseFindsItDown` | failover/supervisor.go:357-363 | the choice passes below an endpoint that no filter passes over only at a commit that finds it unhealthy |
| `Hysteresis.FailBackSpacing` | failover/supervisor.go:304-374 | after an endpoint was active, a fail-back to it comes at least HoldDown later unless a filter passed over it in between, leaving something less preferred in |
| `Hysteresis.FailBacksAreSpaced` | failover/supervisor.go:304-374 | with no filter call in between, two fail-backs to the same endpoint are HoldDown apart |
| `Hysteresis.SpacingIsExact` | failover/supervisor.go:190-374 | fail-backs to an endpoint are HoldDown apart in every well-timed run exactly when no less-preferred endpoint is in a different, named cluster |
| `Hysteresis.TogglingDefeatsSpacing` | failover/supervisor.go:190-207 | for any such rival, toggling the filter brings two fail-backs to one clock reading |
| `Hysteresis.FilterCallsDefeatSpacing` | failover/supervisor.go:190-207 | two datacenters in two clusters already admit an unspaced run |
| `Hysteresis.FailOverIsImmediate` | failover/supervisor.go:351-374 | a commit that finds the active endpoint failed, disabled or absent moves at once to the most preferred endpoint inside the filter that answered the last committed round, or to none |
| `Hysteresis.Converges` | failover/supervisor.go:287-374 | with results and filter constant from a round on, from any commit HoldDown later the active endpoint is the most preferred healthy one inside the filter and no switch is announced again |
| `Hysteresis.TargetExists` | failover/supervisor.go:351-374 | that endpoint (or none) exists and is unique |
| `ClusterScope.Confined` | failover/supervisor.go:190-207 | under a filter the active endpoint and the last switch's target belong to its cluster |
| `ClusterScope.ConfinedUntilNextFilter` | failover/supervisor.go:181-207 | from a filter call until the next one nothing outside the cluster is selected or announced |
| `ClusterScope.FiltersDoNotTouchHealth` | failover/supervisor.go:188-194 | health and streak clocks are those of the run with all filter calls erased |
| `ClusterScope.Members` | failover/supervisor.go:192-194 | the positions of a cluster's endpoints, in order and complete |
| `ClusterScope.FilterIsProjection` | failover/supervisor.go:190-207 | after a first filter call the Supervisor selects and announces exactly what one built from that cluster alone would |
| `Proxy.NothingIsTruncated` | failover/gateway.go:95-118 | each way delivered is a prefix of sent; an uncancelled return after an error-free copy means everything was delivered; no copier blocks when reporting |
| `Proxy.HalfCloseComesLast` | failover/gateway.go:98-111 | a sink sees end-of-stream from an error-free copy only after every byte |
| `Proxy.HandlerWaits` | failover/gateway.go:112-118 | without cancellation no connection is closed under a running copier |
| `Proxy.LedgerIsExact` | failover/gateway.go:95-118 | bytes sent, taken in and put out, closings, errors, half-closes, reports and why the handler returned are exactly what the events say |
| `Proxy.TransferCompletes` | failover/gateway.go:93-118 | whatever the two ends send, some interleaving delivers all of it, half-closes both sinks and closes everything |
| `Proxy.CancellingEndsIt` | failover/gateway.go:112-118 | while the handler relays, cancelling the context gets it out and closes both connections |
| `Proxy.WritesFailAnywhere` | failover/gateway.go:97-98 | a write may fail after any part of the chunk, and that part has arrived |
| `Proxy.CopiersTerminate` | failover/gateway.go:97-111 | once both connections are closed, over every continuation the steps a copier has taken and has left add up to what it had left at the start, at most three, and an unfinished one is never stuck |
| `Gateway.RoutedWhereAllowed` | failover/gateway.go:78-92 | a connection goes to the active endpoint, healthy and inside the filter in force, is proxied exactly when dialling that endpoint succeeds, and is dropped exactly when there is none |
| `Gateway.ProxiedIsComplete` | failover/gateway.go:78-118 | on a proxied connection, in every interleaving, nothing is truncated and nothing is closed under a running copier unless cancelled |
| `Gateway.Listener.Claim` | failover/gateway.go:123-129 | the locked section sets the flag and tells only the first caller to go on |
| `Gateway.Listener.Close` | failover/gateway.go:122-131 | however often it is called, the listener is closed once |
| `Gateway.ShutdownIsSingleAndClean` | failover/gateway.go:57-75 | under any interleaving the listener is closed at most once, exactly once when the calls are done, and an accept error caused by it makes Serve return nil |
| `Gateway.ServeReports` | failover/gateway.go:62-72 | an accept error becomes nil exactly when some Close call came before Serve looked, and is returned otherwise |
| `Gateway.ServeCanEnd` | failover/gateway.go:57-75 | an accepting Serve can accept more, can be ended cleanly by a Close, and can end with the listener's own error |
| `Transport.FullLabelReads` | transport/transport.go:49-80 | an endpoint shows its cluster's label, else its name, a separator, and the same of the DC; without a cluster the DC alone |
| `Control.Server.Publish` | control/control.go:68-82 | the current state is the replay of everything published |
| `Control.LogIsFaithful` | failover/supervisor.go:376-396 | in commit order each switch starts where the last ended, the first from nothing, and the last one describes the present |
| `Control.ReplayAgrees` | control/control.go:43-82 | name and full label shown always match the active endpoint, and all-down matches too exactly once anything was announced |
| `Control.PrefixReplayAgrees` | control/control.go:68-82 | replaying any non-empty prefix shows what was active when its last switch committed |
| `Control.Watch` | control/control.go:144-171 | the calls chain from the zero value, never repeat, and carry the fetched values with repeats removed |
| `Control.DestutterIsExact` | control/control.go:165-168 | repeat removal yields the one stutter-free sequence the fetched values read along |
| `Control.WatchSeesASubsequence` | control/control.go:142-171 | reported values are the server's states in order, each once, whatever polls fail or miss |
| `Control.WebViewFollowsSupervisor` | control/control.go:64-171 | everything the WebView is told was true of the Supervisor right after some switch, in order |
| `SshClient.SshForward.Connect` | transport/ssh.go:64-92 | returns the cached client; otherwise refuses without a host key and on a failed handshake, leaving everything as it was, and establishes and caches the next client with both |
| `SshClient.SshForward.DropClient` | transport/ssh.go:95-103 | empties the cache and closes exactly what was in it |
| `SshClient.SshForward.Dial` | transport/ssh.go:105-118 | a failed forward closes the client it used, a successful one keeps it |
| `SshClient.ClientsAreConserved` | transport/ssh.go:64-118 | under any interleaving every established client is in exactly one of cache, one dropper's hands, closed; none is closed twice |
| `SshClient.EstablishedByHandshakes` | transport/ssh.go:64-92 | in every interleaving clients are established by exactly the connects that meet an empty cache with a host key and a completed handshake, and the cache holds the newest unless dropped since |
| `SshClient.FailsClosed` | transport/ssh.go:71-74 | without a host key nothing is ever established, used or cached, and connects are refused for that reason |
| `SshClient.QuietPoolKeepsItsClient` | transport/ssh.go:64-118 | without a failed forward or a close nothing is dropped and at most one client is established |
| `SshClient.UndisturbedClose` | transport/ssh.go:95-103 | from any state the steps of one undisturbed close empty the cache and close what was in it |
| `SshClient.UndisturbedDial` | transport/ssh.go:105-118 | from any state the steps of one undisturbed dial keep the client after a successful forward and close it after a failed one |
| `SshClient.DropTakes` | transport/ssh.go:64-103 | a caller that connected, failed and drops takes its own client exactly when nobody has dropped since it connected, otherwise nothing or a newer one |
| `SshClient.SharersCanCollide` | transport/ssh.go:105-118 | from any state in which two callers share the cached client, the slower to drop can take the replacement the other is using |
| `SshClient.DropMayHitTheReplacement` | transport/ssh.go:112-114 | two dials from an empty cache lead to such a state and to a torn-down replacement |
| `SshClient.GoneForGood` | transport/ssh.go:64-103 | a client that left the cache never returns to it |
| `SshClient.FailedClientIsNotReused` | transport/ssh.go:110-116 | after a failing caller's drop no connect hands out that client again |
| `Base64.Digit` | auth/keypair.go:148-163 | each entry of the standard's table decodes to its position and is never padding, a dot or a line break |
| `Base64.EncodedAlphabet` | auth/keypair.go:160-163 | no encoding contains a dot or a line break |
| `Base64.RoundTrip` | auth/keypair.go:103-110 | decoding undoes encoding for every byte string, in both variants |
| `Base64.DecodableExactly` | auth/keypair.go:109-118 | a string decodes exactly when, line breaks aside, it is digits in a number that fills whole bytes and then exactly the padding of its variant |
| `Base64.DecodedIsEncoded` | auth/keypair.go:109-118 | what decodes is, line breaks aside, the encoding of the result up to the left-over bits of the last digit of an incomplete group |
| `Base64.LineBreaksAreIgnored` | auth/keypair.go:109-118 | a carriage return or line feed anywhere makes no difference to what is decoded |
| `Base64.EncodedLength` | auth/keypair.go:100-105 | padded output is whole quanta, unpadded output one digit per six bits begun |
| `KeypairAuth.PubKeyRoundTrip` | auth/keypair.go:100-118 | a key survives the allowlist form exactly when it is 32 bytes |
| `KeypairAuth.DecodedPubKey` | auth/keypair.go:109-118 | what is read as a public key is the allowlist form of 32 bytes, up to what the decoder overlooks, and every such string is read |
| `KeypairAuth.Split` | auth/keypair.go:179-182 | the segments are dot-free and join back to the input |
| `KeypairAuth.AssertionSays` | auth/keypair.go:125-163 | read back from its segments, an assertion is a JWT header for EdDSA, claims with the fixed issuer, the key's second half, the audience, whole seconds 60 apart and the nonce, and the signature over exactly the first two segments |
| `KeypairAuth.VerifiedSays` | auth/keypair.go:125-239 | what verification of a signed assertion returns says all of that, for the audience it was verified for |
| `KeypairAuth.AssertionsDiffer` | auth/keypair.go:139-150 | an assertion determines its nonce, audience and public key, so different nonces give different assertions |
| `KeypairAuth.SignWithAnyKey` | auth/keypair.go:125-239 | any 64 bytes and a non-empty audience sign; the outcome is refused as badly signed exactly when Ed25519 refuses it under the second half, otherwise judged by audience and clock |
| `KeypairAuth.HalvesMatter` | auth/keypair.go:88-135 | the assumptions can be met by a scheme under which a key is usable exactly when its halves belong together, although every key signs |
| `KeypairAuth.SignThenVerify` | auth/keypair.go:125-239 | for a key as generated, the verifier's answer on a signed assertion for every clock and audience: the signed claims exactly from 30 s before to 60 s after the whole second of signing |
| `KeypairAuth.ValidityWindow` | auth/keypair.go:227-236 | for a key as generated, truncation included: accepted for s-30s <= v <= s+59s, refused for v > s+60s and v < s-31s |
| `KeypairAuth.WindowIsExact` | auth/keypair.go:226-236 | the clock checks on 64-bit seconds pass exactly when, in true seconds, the expiry is positive, countable and not past, and the issue time is not positive, at most 30 s ahead, or too large for the library to count |
| `KeypairAuth.FarFutureIsAccepted` | auth/keypair.go:230-236 | the largest issue time passes although it is far in the future |
| `KeypairAuth.AcceptedIsSound` | auth/keypair.go:175-239 | anything accepted is three dot-free segments, EdDSA, signed by its own sub over the first two, for the audience and in its window |
| `KeypairAuth.GenuineIsAccepted` | auth/keypair.go:175-239 | conversely anything of that shape is accepted, for exactly what it claims |
| `KeypairAuth.AcceptanceIsAnInterval` | auth/keypair.go:223-238 | the clocks at which an assertion is accepted form an interval, with one answer |
| `Discovery.FirstLabel` | discovery/discovery.go:113-121 | the label is the unique dot-free prefix that ends at the first dot or the end |
| `Discovery.Label` | discovery/discovery.go:113-128 | the scanning loop returns the first label of the host without its trailing dot |
| `Discovery.LexLessIsDictionary` | discovery/discovery.go:107 | names are compared as in a dictionary: at the first difference the smaller byte, or the end, comes first |
| `Discovery.SortTargets` | discovery/discovery.go:102-109 | the array is left stably sorted by priority then name |
| `Discovery.SortIsStable` | discovery/discovery.go:102-109 | the sort is ordered, stable and a permutation |
| `Discovery.StablySortedIsSort` | discovery/discovery.go:102-109 | a list has exactly one stable sorting, so the library's is this one |
| `Discovery.Srv` | discovery/discovery.go:54-74 | a failed lookup is returned; otherwise the records rearranged as targets, least priority first |
| `Discovery.SortedByPriority` | discovery/discovery.go:60-109 | each target has its record's numbers, its host without a trailing dot and its first label, and a record with a smaller priority, or the same and an earlier label, stands before |
| `Discovery.SortIgnoresOrder` | discovery/discovery.go:44-45 | with identifying keys two orderings of the records give the same list |
| `Discovery.SortIsOrderFree` | discovery/discovery.go:102-109 | any targets sort to a function of their multiset exactly when their keys identify them |
| `Discovery.OrderIndependence` | discovery/discovery.go:44-74 | the discovered list is a function of the record set exactly when no two records that make different targets share priority and first label |
| `Discovery.ZonesCollide` | discovery/discovery.go:102-121 | hosts with one label in two zones, at one priority, come out in the order they came in |
| `Discovery.TwoZones` | discovery/discovery.go:102-121 | "weft-a.z1." and "weft-a.z2." are such a pair |
| `Shell.NormalisedClusters` | shell/shell.go:147-170 | legacy endpoints become one default cluster in front of the others |
| `Shell.EachDC` | shell/shell.go:133-141 | every DC is reported once with its position in the flattened order |
| `Shell.FlatIsDeclarationOrder` | shell/shell.go:133-141 | a DC's position counts the DCs of the clusters before its own and those before it there |
| `Shell.BuildEndpoints` | shell/shell.go:276-303 | succeeds with one endpoint per DC in that order, or names the first offence |
| `Shell.OffenceIsReal` | shell/shell.go:278-293 | an error is only returned for a configuration that cannot be built |
| `Shell.WrappedBuildsAsConfigured` | shell/shell.go:147-170 | a legacy endpoint is wrapped field by field and its backend is built from what was configured, save the loom address |
| `Shell.EndpointReads` | shell/shell.go:276-303 | a DC is announced by its own label under its cluster's, names standing in for missing labels |
| `Shell.ConfigureTargets` | shell/discover.go:30-37 | one direct endpoint per target, in order |
| `Shell.DiscoveredIsDirect` | shell/discover.go:30-37 | a target becomes a direct endpoint of its name, dialling host, colon and port in plain digits, with brackets round a host that has colons |
| `Shell.Discover` | shell/discover.go:22-39 | lookup failures and empty answers are errors; otherwise the endpoints begin with the sorted targets, each with its own name and the backend of its own address, and direct-only configurations always build |
| `Shell.AddressIdentifies` | discovery/discovery.go:35 | different host and port pairs have different addresses, whatever the host |
| `Shell.FirstRound` | failover/supervisor.go:357-363 | from a cold start the first round takes the most preferred endpoint that answers |
| `Shell.FirstRoundFollowsDns` | shell/discover.go:22-39 | the discovered endpoints are the records rearranged, and the first choice comes from a record of least priority among those that answer, earliest label among several, and dials that record's host and port |
| `Shell.FirstRoundIgnoresDnsOrder` | discovery/discovery.go:44-45 | two answers with the same identifying records, in any order, lead to the same first endpoint when the same datacenters answer |
| `Template.Index` | webinject/auth.go:110-111 | the position of the first mark, or that there is none |
| `Template.Sprintf` | webinject/auth.go:108-118 | the loop replaces the then-first mark by each argument in turn |
| `Template.OneMark` | webinject/auth.go:108-118 | a single mark is replaced by the argument, whatever the argument is, and a template without one is left alone |
| `Template.SprintfIsPositional` | webinject/auth.go:108-118 | when every argument that another one follows is safe, rescanning equals cutting the template at its marks and interleaving |
| `Template.QuotedIsPositional` | webinject/auth.go:104-118 | with double-quoted arguments that equality holds exactly when no argument that fills a mark and is followed by another contains one |
| `Template.SafeIsExact` | webinject/auth.go:108-118 | an argument works in every template exactly when it is safe |

## Left out

- OnSwitch delivery order: callbacks run after the lock is released, so two callers may deliver out of commit order; announcements are stated in commit order.
- Sockets, HTTP, DNS queries, SSH handshakes, mesh dialing and files: probe results, dial outcomes, fetched values, records and clock readings are arbitrary inputs.
- Scheduling fairness, ticker drift and the saturation of Go durations: time is unbounded and concurrency is a matter of steps.
- Supervisor: endpoint records are values in an array here, not individually allocated records; nothing in the source shares them.
- SRV weight: copied, never used for selection, so nothing is claimed about it.
- Discovery.SortTargets: the library's stable sort is modelled as the insertion sort it is on short slices; uniqueness of stable sortings covers the rest.
- The A-record fallback of discovery, which sorts bare addresses and numbers their names: it has one priority and no labels, so nothing here depends on it.
- Backend construction, LoadConfig, duration parsing and key loading: single-branch validation over libraries; which backends can be built is an input.
- The loom endpoint list and gateway: the same loops and the same Supervisor a second time.
- DirectTCP and WireGuard: thin wrappers around a dial.
- Unforgeability of signatures: nothing is assumed or claimed about signatures that were not made by the signer.
- The JavaScript text, InitScript, FailoverNotice and token carrying.
