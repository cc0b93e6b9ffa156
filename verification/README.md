# A verified model of dcgm-exporter-supervisor

dcgm-exporter-supervisor discovers virtual machines, keeps one child exporter
running for each of them, and serves the metrics of all of them on one page. This
project models the path from a discovered machine to a labelled metric and proves
what the program promises along it. `dafny verify dfyconfig.toml` checks
everything.

| module | what it models |
|---|---|
| `Text` | Go strings and byte slices (one char per byte) and the library functions used on them |
| `Exposition` | a parser for sample lines of the Prometheus text exposition format 0.0.4, "Text format details" |
| `Relabel`, `RelabelProofs`, `Injection`, `InjectionLaws` | the label injector, as a program and as a transformer of samples |
| `Config`, `Aggregate`, `Collisions`, `Metadata` | concurrent scraping, the aggregated page, colliding series, and repeated `# HELP` and `# TYPE` lines |
| `Supervision`, `SupervisionLaws`, `StateLaws` | the supervision protocol as a transition system over every interleaving, when the two claims that fail of it do hold, and what an instance reports of itself |
| `RunLoop` | the run loop of one instance as a class that takes steps of that system |
| `Reconcile` | the manager's map of instances, as a class, against a function on values; its `Instance` has the field the manager writes, the one in `RunLoop` those the run loop writes |
| `Fleet`, `FleetRuns` | all instances together, as the manager creates, stops, restarts and forgets them by target ID, and a run of them for every run of the pipeline |
| `Labels`, `Discovery`, `Sharing`, `Announce` | the pipeline from provider updates to managed instances: label maps that copies of a target share, the system, what the sharing does, and the program taking the system's steps |
| `EndToEnd` | the pipeline and the page together |
| `Netutil`, `Endpoints`, `Addresses`, `LinkLocal` | endpoint normalisation, with concrete definitions of `net.ParseIP` (section 2.2 of RFC 4291, zones as in section 11 of RFC 4007) and `net.SplitHostPort` |
| `Libvirt` | choosing an address from a virsh table, and the endpoint made of it |
| `Resolver` | the namespace resolver with its cache |
| `Allocator` | the port allocator |
| `Witnesses` | inputs at which the laws with a condition fail, one for each condition |

Conventions. A loop of the program is a method proved against a function; the laws
are lemmas about the function. Whatever Go leaves open (map iteration order, the
order in which goroutines finish, the interleaving of goroutines) is a
nondeterministic choice or a step parameter. Error returns are constructors
(`ScanError`, `Unclosed`, `None`). Constants and branches are those of the code.

What the proofs turned up, each with an exact condition, and an input that meets it
(in `Witnesses` unless another lemma is named):

* Label values are escaped, label names are not, and nothing checks them. With an
  invalid name in the map injection leaves no well-formed sample its meaning
  (`InjectPreservesMeaning`); a metadata key with a hyphen has that effect on its whole
  target (`HyphenSpoilsEverySample`), and a name that itself reads as labels lets one
  target show another's series (`InvalidNameCollides`). A newline in a name adds lines
  (`LinesKeptExactlyWhen`). The laws below ask for valid names where it says so.
* With extra labels of new, valid names, injection spoils the samples whose label
  block ends in a comma or holds only blanks, and no other well-formed sample
  (`InjectPreservesMeaning`; `up{a="b",} 1`).
* Injecting twice differs from injecting the union exactly on lines without a label
  block but with a `}` behind the name (`ComposeLine`; `up 1}`).
* If all label names are valid and each child's own text is well formed and repeats no
  series, the page shows a series twice exactly if a target without ID and labels shows
  a sample named like a self-metric (`PageHasNoCollision`; `NAMELESS`).
* The page declares the help and type of each metric once exactly if no two scraped
  targets, and no target twice, declare the same one, and none a self-metric
  (`PageDeclaresOnceExactlyWhen`): any two exporters that show the same metric break this
  rule of the text format (`SameMetricIsDeclaredTwice`).
* Normalising an endpoint twice differs from normalising it once exactly outside
  `Stable` (`NormalizeTwice`; `a:b:c`).
* An unbracketed compressed IPv6 address whose last group can be read as a port
  loses that group to the port exactly under `MisreadAsPort` (`UnscopedStaysWhole`;
  `2001:db8::1:5555`), and a link-local address on an interface alias loses the alias
  to the port exactly under `AliasPort` (`ScopedStaysWhole`; `eth0:1`).
* A loopback or unspecified address is chosen from a virsh table exactly if the chosen
  row writes one with brackets or a zone (`UselessExactlyWhen`; `::1%eth0`).
* A second identical Reconcile restarts exactly the instances the first one created
  whose endpoint was not in normal form (`SecondReconcile`; `10.0.0.1`); an instance is
  restarted exactly for a changed endpoint or namespace (`RestartsExactlyWhen`), so a
  changed name alone is not picked up (`NameFollowsExactlyWhen`; `RenameIsNotPickedUp`).
* The consumer writes into label maps that the discovery manager still holds. Once the
  resolver changes its answer, the namespace label of an instance tells its namespace
  exactly in the cases of `NetnsLabelExactlyWhen`; `NetnsLabelGoesStale` is a run in
  which it does not, after a namespace has got a route between two deliveries. With one
  resolver the sharing does not show (`OneResolverConvergence`).
* An instance is in the state written last, by Stop, a health probe or any of its loops
  (`StateIsLastWritten`). Stop always leaves it `stopped` (`StopLeavesStopped`). That
  stays the state of a halted instance whose loops have ended, and which is not started
  again, exactly as long as no health probe of it completes (`StoppedStaysExactlyWhen`,
  `StoppedIsFinalUnlessProbed`; the run `StoppedIsNotFinal`). After a Stop that timed out
  it can also change without one, exactly if a loop is about to write another state
  (`RevivesExactlyWhen`, which constructs the run).
* After Stops that timed out, a new Start can lead to two children exactly if an older
  loop has a child or may still start one (`OverlapExactlyWhen`; the run
  `TimeoutOverlapsChildren`); once the older loops are past their children the
  guarantees hold again (`OneChildAgain`).

Where a comment in the code says otherwise the code is followed: the comment above
`InjectLabels` says white space is preserved, the code drops it around sample lines
and keeps it on blank lines and comments, up to a carriage return at the end.

## Model

| member | source | states |
|---|---|---|
| RelabelProofs.EscapeIsOnePass | internal/pkg/proxy/relabel.go:28-33 | the three replacement passes in their order are one character-by-character escape |
| RelabelProofs.EscapeRoundTrip | internal/pkg/proxy/relabel.go:28-33 | reading an escaped value up to its closing quote gives the value back, and the escaped text has no raw newline |
| Relabel.FormatExtraLabels | internal/pkg/proxy/relabel.go:36-58 | the printing loop gives the same text for every iteration order of the map |
| RelabelProofs.FormatRoundTrip | internal/pkg/proxy/relabel.go:36-58 | for valid label names the printed extras read back as exactly the map, in strictly increasing key order |
| RelabelProofs.FormatInjective | internal/pkg/proxy/relabel.go:36-58 | label maps with valid names print differently when they differ |
| Exposition.ParseBlockExtend | internal/pkg/proxy/relabel.go:99-106 | appending a comma and further labels to a well-formed block reads as the old labels followed by the new ones, exactly when the block ends with a label |
| Injection.BraceSplit | internal/pkg/proxy/relabel.go:84-97 | first `{` and last `}` delimit the label block, whatever braces, commas or quotes stand in the label values |
| Relabel.RewriteLine | internal/pkg/proxy/relabel.go:73-128 | one line is rewritten, passed through or left malformed, in all branches |
| Relabel.InjectLabels | internal/pkg/proxy/relabel.go:62-136 | the scanning loop yields the line-by-line rewriting, nothing changed for an empty map, and an error exactly when a line exceeds the scanner's limit |
| Injection.InjectMeaning | internal/pkg/proxy/relabel.go:83-128 | a well-formed sample becomes the same sample with the sorted extras appended, or else no sample; the label block decides which |
| Injection.InjectPreservesMeaning | internal/pkg/proxy/relabel.go:83-128 | name, value, timestamp and labels survive exactly when the block is empty or ends with a label and the extras are new, valid names |
| InjectionLaws.InjectHomomorphism | internal/pkg/proxy/relabel.go:71-135 | injecting into a text of whole lines followed by another is injecting into both |
| InjectionLaws.InjectKeepsLines | internal/pkg/proxy/relabel.go:60-61 | if no label name holds a newline: as many lines in the same order; blank lines and comments unchanged |
| InjectionLaws.ChangedExactlyWhen | internal/pkg/proxy/relabel.go:73-128 | a line comes through as it is, white space and all, exactly if it is blank, a comment, or has no place for the labels |
| InjectionLaws.CarriageReturnsGo | internal/pkg/proxy/relabel.go:68-135 | text with `\r\n` at its line ends is rewritten to the same as text with `\n` |
| InjectionLaws.LinesKeptExactlyWhen | internal/pkg/proxy/relabel.go:36-128 | for every label map: as many lines as before exactly if no label name holds a newline or no line has the labels written into it |
| InjectionLaws.ComposeLine | internal/pkg/proxy/relabel.go:73-128 | two injections into a line are one of both label lists, exactly when the line has no stray brace |
| InjectionLaws.InjectCompose | internal/pkg/proxy/relabel.go:62-136 | on text without carriage returns, injecting A then B is injecting their union when A sorts before B and no name holds a newline, exactly when no line has a stray brace |
| Aggregate.ScrapeAll | internal/pkg/supervisor/manager.go:178-202 | whatever order the scrapers finish in, the indexed results are those of a sequential map |
| Aggregate.EnrichTarget | internal/pkg/server/server.go:130-154 | a target contributes a section exactly when it was scraped and could be relabelled, and then its relabelled text and a newline; the labels are its ID, its name unless it has a `vm_name` label of its own, and its own labels, and nothing else |
| Aggregate.HandleMetrics | internal/pkg/server/server.go:126-172 | the page is the sections of all targets followed by the self-metrics; the targets up are as many as were scraped and could be relabelled, the scrape errors the others |
| Collisions.PageHasNoCollision | internal/pkg/server/server.go:130-172 | if every label name is valid, every child text is well formed and repeats no series, and target IDs differ: no two samples on the page have the same name and labels, empty labels counting as absent -- not of two targets, not of one, not of a target and the supervisor -- exactly if no target without ID and labels shows a sample named like a self-metric |
| Collisions.IdsPreventCollision | internal/pkg/server/server.go:130-172 | under the same conditions, with IDs that are not empty there is no collision at all |
| Collisions.ShadowsExactlyWhen | internal/pkg/server/server.go:136-145 | which lines of a child come to read as a self-metric once they are labelled |
| Collisions.PageShowsEverySample | internal/pkg/server/server.go:130-154 | every sample of every scraped target with valid label names, whatever the IDs, is on the page with its value, timestamp and labels; behind these, in the order of their names, stand `target_id` with the ID, `vm_name` with the target's own label or else its name, its other labels, and nothing else |
| Collisions.PageShowsNoOther | internal/pkg/server/server.go:130-172 | with valid label names and well-formed children without repetition, every sample on the page but the self-metrics is a sample of some child with exactly these labels added |
| Collisions.SelfMetrics | internal/pkg/server/server.go:156-172 | the appended lines read as four unlabelled samples of distinct names that carry the counts, declared as three gauges and a counter |
| Metadata.PageDeclaresOnceExactlyWhen | internal/pkg/server/server.go:130-172 | if no label name holds a newline: the page has one HELP and one TYPE line at most for each metric name exactly if no scraped target's text repeats one, no two targets' texts share one, and none is that of a self-metric |
| EndToEnd.ScrapedPageHasNoCollision | internal/pkg/server/server.go:124-172 | in every reachable state of the pipeline the target IDs are the keys the instances are managed under, so with valid label names and children as above the page scraped from them has no collision but the one above, and none when no ID is empty |
| Supervision.RunKeeps | internal/pkg/supervisor/instance.go:140-196 | every interleaving keeps the protocol's invariants |
| Supervision.AtMostOneUncancelled | internal/pkg/supervisor/instance.go:140-196 | at most one run loop of an instance has a live context, a closed stoppedCh means no child, retry k waits the capped power of two |
| Supervision.AtMostOneChild | internal/pkg/supervisor/instance.go:283-365 | unless a Stop has timed out an instance has at most one child, and pid is nonzero exactly while that child is being waited for |
| Supervision.CancelledLoopDrains | internal/pkg/supervisor/instance.go:158-195 | a loop with a done context takes boundedly many steps, starts at most one more child, counts at most one more restart, and is held up only by a living child |
| Supervision.NothingSpawnsAfterShutdown | internal/pkg/supervisor/manager.go:205-222 | a loop started after Shutdown has cancelled the root context never starts a child |
| SupervisionLaws.StoppedStaysExactlyWhen | internal/pkg/supervisor/instance.go:324-405 | over every continuation without a Start of it, a halted instance whose loops have ended is `stopped` at the end exactly if it was at the beginning and no health probe of it has completed |
| StateLaws.StateIsLastWritten | internal/pkg/supervisor/instance.go:158-403 | in every reachable state, whatever Stops have timed out, the state is the one that was written last, in the order of the run: `stopped` by the return of Stop or a loop that ends, `starting`, `running` and `restarting` by a loop that gets there, current or not, `running` or `unhealthy` by a probe; `starting` if nothing has written yet |
| StateLaws.StopLeavesStopped | internal/pkg/supervisor/instance.go:324-365 | every run that ends with the return of Stop, timed out or not, leaves the instance halted and `stopped` |
| StateLaws.RestartsAddUp | internal/pkg/supervisor/instance.go:173-176 | along every run the restart count of an instance is the sum of what its loops have counted |
| StateLaws.StoppedIsFinalUnlessProbed | internal/pkg/supervisor/instance.go:324-405 | after every run that has halted the instance, and in which none of its Stops has timed out, it is `stopped` exactly if no health probe of it has completed since a Stop of it returned |
| SupervisionLaws.RevivesExactlyWhen | internal/pkg/supervisor/instance.go:158-195 | in every reachable state, whatever Stops have timed out: a halted instance that is `stopped` can come to another state without a Start or a probe exactly if one of its loops is between choosing to start a child and marking it running, or between finding a child gone and marking the restart |
| SupervisionLaws.OverlapExactlyWhen | internal/pkg/supervisor/instance.go:140-150 | in every reachable state before Shutdown, starting a halted instance can lead to two children, each with its own process ID, without a further timeout exactly if one of its older loops has a child or may still start one |
| SupervisionLaws.OneChildAgain | internal/pkg/supervisor/instance.go:283-365 | whatever Stops have timed out, once the loops of a halted instance are past their children it has one child at most, and the pid of that child, until another Stop times out |
| Supervision.StoppedIsNotFinal | internal/pkg/supervisor/instance.go:381-405 | a run in which a late health probe overwrites `stopped` |
| Supervision.TimeoutOverlapsChildren | internal/pkg/supervisor/instance.go:344-358 | a run in which a timed-out Stop and a Start leave two children alive and pid names the newer one |
| RunLoop.Instance.Run | internal/pkg/supervisor/instance.go:152-196 | whatever its turns meet, the loop ends stopped, its k-th delay is the k-th of the schedule, it counts its restarts; and what it has done is a run of the whole system to this loop, state and pid, with a Stop, or a Shutdown, where it finds its context done |
| RunLoop.Instance.ExecProcess | internal/pkg/supervisor/instance.go:283-310 | starting and waiting for a child: pid is recorded, then cleared |
| RunLoop.DelayClosedForm | internal/pkg/supervisor/instance.go:155-194 | the delay before retry k+1 is the smaller of 2^k and 30 seconds |
| RunLoop.FollowIsSystem | internal/pkg/supervisor/instance.go:149-196 | while its context stays as it is, what the loop does alone is what the system does for that loop |
| RunLoop.TraceUnderStop | internal/pkg/supervisor/instance.go:152-196 | a whole trace of the loop, its context turning done anywhere, is a run of the system in which Stop is called there, after any earlier loops of the instance |
| RunLoop.TraceUnderShutdown | internal/pkg/supervisor/instance.go:152-196 | the same with the root context cancelled there |
| Reconcile.LastDuplicateWins | internal/pkg/supervisor/manager.go:68-75 | of several desired targets with one key the last one is used |
| Reconcile.ListOrderIrrelevant | internal/pkg/supervisor/manager.go:68-75 | with distinct keys the order of the desired list does not matter |
| Reconcile.Converges | internal/pkg/supervisor/manager.go:64-113 | from any state: keys are those of the desired targets, and namespace, labels, tenant and endpoint match, the endpoint of a new instance in normal form |
| Reconcile.RestartsExactlyWhen | internal/pkg/supervisor/manager.go:86-112 | a managed instance keeps its child exactly if endpoint and namespace are unchanged, whatever else changes, and then only labels and tenant are new; otherwise it is stopped and started once, with the desired target |
| Reconcile.CreatesOnce | internal/pkg/supervisor/manager.go:86-95 | a new instance is started once, with the desired target but for the normal form of its endpoint, if it has one |
| Reconcile.SecondReconcile | internal/pkg/supervisor/manager.go:86-112 | a second identical call changes an instance exactly if the first call created it and its endpoint is not in normal form, and then restarts it once |
| Reconcile.ThirdReconcileIsIdle | internal/pkg/supervisor/manager.go:86-112 | a third identical call changes nothing, from any state and for any endpoints |
| Reconcile.NameFollowsExactlyWhen | internal/pkg/supervisor/manager.go:97-111 | the stored name and arguments are the desired ones exactly if the instance is new, its endpoint or namespace has changed, or it had them already |
| Reconcile.KeepsProtocol | internal/pkg/supervisor/manager.go:77-112 | one call starts only fresh or halted instances and stops only supervised ones |
| Reconcile.KeepsProtocolThroughout | internal/pkg/supervisor/manager.go:77-112 | so does any sequence of calls with any lists |
| Reconcile.SupervisedCalls | internal/pkg/supervisor/manager.go:77-112 | which means that starts and stops of an instance take turns, beginning with a start |
| Fleet.OneChildPerTarget | internal/pkg/supervisor/manager.go:77-112 | over every run of the manager and its instances, through removals and new instances: if no Stop for a target has timed out, it has one child at most |
| Fleet.OneLiveLoopPerOffer | internal/pkg/supervisor/manager.go:64-113 | with the pipeline quiet and the manager at rest with what it has delivered: before Shutdown every offered ID has exactly one run loop whose context nobody has cancelled, and that loop is still running; every other ID, and after Shutdown every ID, has none |
| FleetRuns.EveryPipelineHasAFleet | internal/pkg/supervisor/manager.go:64-113 | every run of the pipeline, quiet or not, has a run of the manager and its instances that is at rest with what the pipeline has delivered, before Shutdown and without a Stop that timed out |
| Reconcile.Manager.Reconcile | internal/pkg/supervisor/manager.go:64-113 | in every iteration order the instances become those of the function above; kept ones are the same objects, dropped ones keep their targets and are stopped once |
| Reconcile.Manager.BuildDesired | internal/pkg/supervisor/manager.go:68-75 | the loop builds the map from keys to last duplicates |
| Reconcile.Renew | internal/pkg/supervisor/manager.go:96-111 | one instance is stopped, retargeted and started if its endpoint or namespace differs, and otherwise gets the labels and the tenant in place, with no call; no other instance is touched |
| Reconcile.Manager.Shutdown | internal/pkg/supervisor/manager.go:205-222 | the root context is cancelled, every instance stopped exactly once in any order, the map emptied |
| Labels.EnrichedLabels | pkg/cmd/app.go:320-333 | the target's own namespace wins over the resolver's; a nonempty tenant or netns label wins over the target's tenant and namespace, which fill it in otherwise; no other label and no other field changes |
| Labels.EnrichedTwice | pkg/cmd/app.go:320-333 | filling in namespace and labels twice with the same answer is filling them in once |
| Labels.WrittenAgain | pkg/cmd/app.go:324-332 | what deliveries leave in a shared label map: the target's own labels, its tenant, and the first namespace given that is not empty |
| Labels.LabelTellsExactlyWhen | pkg/cmd/app.go:330-332 | the label in the map is the namespace given last exactly if the target brought it, or brought none and was given that one first |
| Discovery.ChannelDelivers | internal/pkg/discovery/discovery.go:119-128 | in every interleaving the buffer is within capacity and ends the history of snapshots, the send after the drain never blocks, what the consumer has received is an in-order selection of the history, the last of which it has in hand, and which ends with the newest |
| Discovery.Convergence | internal/pkg/discovery/discovery.go:93-129 | once all is quiet, whatever the resolver has answered, the managed IDs are those in the providers' latest lists, and each instance serves a target of such a list: tenant, endpoint or its normal form, the namespace given last, and the labels that all deliveries have left in the shared map |
| Sharing.NetnsLabelExactlyWhen | pkg/cmd/app.go:320-335 | then the namespace label of an instance tells its namespace exactly if the target brought that label, or brought none and has a namespace of its own, no label map to share, or was given the last namespace first |
| Sharing.OneResolverConvergence | pkg/cmd/app.go:320-335 | with one resolver each instance has exactly the namespace and labels its target alone leads to, sharing or not |
| Sharing.ResolvedIsSteady | internal/pkg/netns/resolver.go:117-125 | the namespace search does not depend on what deliveries write into the labels |
| Sharing.NetnsLabelGoesStale | pkg/cmd/app.go:320-335 | a run whose answers are those of the resolver, before and after a namespace has a route, in which an instance moves to ns1 while its label still says mgmt |
| Discovery.QuietIsReached | internal/pkg/discovery/discovery.go:119-128 | without further updates every step leaves less to do, and one is enabled until nothing is left |
| Discovery.DeliveredServes | pkg/cmd/app.go:320-335 | after a delivery each target of the snapshot has an instance that serves it |
| Announce.EnrichTargets | pkg/cmd/app.go:320-333 | the loop enriches every target in place, its labels in the map object all copies share; only a target without a map gets a new one |
| Announce.Manager.Hand | pkg/cmd/app.go:316-335 | the consumer enriches the snapshot and calls Reconcile with it: the instances of the supervisor's manager become, and the shared label maps hold, what the system says, for every snapshot that can be in hand |
| Announce.Manager.UpdateTargets | internal/pkg/discovery/discovery.go:93-129 | with the consumer acting between its channel operations, an update is a run of the system that adds one snapshot of the latest lists to the history, and the label maps and the managed instances are as the system says throughout |
| Announce.Manager.Snapshot | internal/pkg/discovery/discovery.go:132-148 | in every iteration order the list has one target per offered ID, as some provider offers it |
| Announce.Manager.BuildProviderMap | internal/pkg/discovery/discovery.go:97-103 | empty IDs are filled with names; the last target of an ID counts |
| Discovery.LastListedCounts | internal/pkg/discovery/discovery.go:97-103 | of the targets that go by one ID, their own or else their name, the last in the list is offered, under that ID and otherwise unchanged |
| Endpoints.PortsAre | internal/pkg/netutil/netutil.go:146 | of the numbers, written in decimal, exactly those from 1 to 65535 count as a port |
| Endpoints.NormalizeTwice | internal/pkg/netutil/netutil.go:97-159 | normalising an accepted result again gives it back exactly for the endpoints that are Stable |
| Endpoints.NormalizePlain | internal/pkg/netutil/netutil.go:97-159 | a name or IPv4 address gets the default port unless it has a port; vsock and unix endpoints are left alone; nothing at all is refused |
| Endpoints.NormalizeClosed | internal/pkg/netutil/netutil.go:115-130 | a bracketed host gets the default port if nothing follows it, and is left alone if a colon does |
| Endpoints.RefusedExactlyWhen | internal/pkg/netutil/netutil.go:97-159 | refused is exactly an empty endpoint, one with a bracket that is not closed, and one with anything but a colon behind it |
| Endpoints.SplitHostIsNotIPv6 | internal/pkg/netutil/netutil.go:133-138 | the branch that brackets a host split off by SplitHostPort is unreachable |
| Endpoints.NormalizeBracketed | internal/pkg/netutil/netutil.go:116-130 | a bracketed host with a port is left alone, or refused, by what follows its first `]` |
| Addresses.ScopedStaysWhole | internal/pkg/netutil/netutil.go:142-155 | an IPv6 address with a zone becomes the host as a whole, zone included, exactly unless the zone is an alias such as `eth0:1` whose last part reads as a port |
| Addresses.UnscopedStaysWhole | internal/pkg/netutil/netutil.go:142-155 | an IPv6 address without a zone becomes the host as a whole exactly unless its last group is misread as a port |
| Addresses.NotMisread | internal/pkg/netutil/netutil.go:142-155 | a full eight-group address is never misread |
| LinkLocal.LinkLocalByText | internal/pkg/netutil/netutil.go:33-38 | an IPv6 address without brackets and zone is link-local exactly if its text starts with `fe8`, `fe9`, `fea` or `feb`, one more digit and a colon |
| Libvirt.ParseAndSelectIP | internal/pkg/discovery/libvirt/libvirt.go:228-309 | the scan that carries the current interface along selects what looking back from each row would select |
| Libvirt.NearestIfaceIs | internal/pkg/discovery/libvirt/libvirt.go:246-249 | the interface of a row is the one named by the nearest row at or above it that names one |
| Libvirt.RowCountsExactlyWhen | internal/pkg/discovery/libvirt/libvirt.go:210-271 | a row gives an address to choose from exactly if it names a protocol with an address behind it, and neither interface nor address is a loopback one or unspecified |
| Libvirt.RowKinds | internal/pkg/discovery/libvirt/libvirt.go:273-300 | which rows count as IPv4, as global and as link-local IPv6 |
| Libvirt.IPv6Choice | internal/pkg/discovery/libvirt/libvirt.go:282-300 | in ipv6 mode: the first global row, else the first link-local row scoped with its interface, else nothing |
| Libvirt.IPv4Choice | internal/pkg/discovery/libvirt/libvirt.go:273-308 | in the other modes: the address of the first IPv4 row; without such a row, or if its address is empty, auto chooses as ipv6 would and ipv4 nothing |
| Libvirt.UselessExactlyWhen | internal/pkg/discovery/libvirt/libvirt.go:210-309 | in every mode a loopback or unspecified address, with whatever zone or brackets, is chosen exactly if the chosen row writes one with a zone or brackets |
| Libvirt.NeverLoopback | internal/pkg/discovery/libvirt/libvirt.go:216-219 | so none is chosen in a spelling net.ParseIP reads |
| Libvirt.EndpointSources | internal/pkg/discovery/libvirt/libvirt.go:171-202 | where the mode allows it a vsock address comes first, which NewInstance leaves as it is; then the guest agent's table, then that of the leases; otherwise there is no endpoint |
| Libvirt.AgentEndpointSettles | internal/pkg/discovery/libvirt/libvirt.go:171-202 | a link-local choice from the agent's table is the endpoint whatever the leases say, and a new instance leaves it unchanged exactly if a `]` in its interface is followed by a colon |
| Libvirt.LinkLocalEndpoint | internal/pkg/discovery/libvirt/libvirt.go:183-187 | a link-local choice ends up as `tcp://[addr%iface]:port` with the whole address, exactly unless the interface is such an alias |
| Libvirt.GlobalEndpoint | internal/pkg/discovery/libvirt/libvirt.go:183-187 | a global IPv6 choice ends up as `tcp://[addr]:port` exactly unless it is misread |
| Resolver.Resolver.constructor | internal/pkg/netns/resolver.go:61-99 | the loops build the names in order of first appearance and the parsed subnets |
| Resolver.DedupeKeepsChoice | internal/pkg/netns/resolver.go:68-76 | the first accepted candidate is the first named item of the configuration that the checker accepts |
| Resolver.EntriesKeepChoice | internal/pkg/netns/resolver.go:78-95 | the first entry around an address belongs to the first named item with a subnet around it; blank and invalid subnets do not matter |
| Resolver.Resolver.Resolve | internal/pkg/netns/resolver.go:107-187 | after any earlier calls the result is that of the search without cache and without the deduplicated lists, and cached answers stay; it keeps the order: the target's own namespace; for its tenant -- its own, else its project's, else the label's -- the first item that lists it, whatever the template, else the rendered template; then the first item with a subnet around its address, the first with a route to it, the default |
| Resolver.ResolvedInOrder | internal/pkg/netns/resolver.go:107-187 | the cache-free search keeps that order for every configuration and target |
| Resolver.Resolver.DetectRoute | internal/pkg/netns/resolver.go:158-178 | a cached or fresh route is the one the search finds, and is what the cache holds afterwards |
| Resolver.ExtractBracketed | internal/pkg/netns/resolver.go:190-223 | the address of a bracketed endpoint is what is in its brackets up to the zone |
| Resolver.ExtractPlain | internal/pkg/netns/resolver.go:190-223 | without brackets it is what is before the port, or all of it |
| Resolver.ExtractWithScheme | internal/pkg/netns/resolver.go:196-223 | the same with `tcp://` in front, given what url.Parse finds |
| Resolver.RenderMeaning | internal/pkg/netns/resolver.go:138-145 | the two replacement passes fill every placeholder with the tenant and nothing else, when no other braces occur |
| Resolver.TenantsStayApart | internal/pkg/netns/resolver.go:127-146 | for a template with a placeholder, and no braces in its other text or in the tenants: two targets whose tenants no item lists get the same namespace exactly if their tenants are the same |
| Allocator.NewPortAllocator | internal/pkg/allocator/allocator.go:40-51 | refused exactly for a range that is not positive or is empty |
| Allocator.PortAllocator.Allocate | internal/pkg/allocator/allocator.go:54-71 | keeps the two maps inverse; an ID keeps its port, a new one gets the least free port, and fails exactly when all ports are held |
| Allocator.PortAllocator.Release | internal/pkg/allocator/allocator.go:74-82 | forgets the ID and its port in both maps: the ID has no port any more, the port has no ID, and every other ID keeps its own |
| Allocator.PortAllocator.Get | internal/pkg/allocator/allocator.go:85-91 | the port found for an ID is in range and owned by that ID |
| Allocator.RunKeeps | internal/pkg/allocator/allocator.go:31-82 | over every run live IDs hold distinct ports of the range |
| Allocator.KeepsPort | internal/pkg/allocator/allocator.go:58-60 | an ID keeps its port over every run that does not release it |
| Allocator.LiveExactlyWhen | internal/pkg/allocator/allocator.go:54-82 | after every run an ID has a port exactly if an Allocate of it has succeeded after its last Release |
| Allocator.ReleaseFrees | internal/pkg/allocator/allocator.go:74-82 | after every run a Release gives the port of its ID back and leaves all other IDs their ports |
| Allocator.ReleasedIsReused | internal/pkg/allocator/allocator.go:54-82 | with all ports held, a new ID right after a Release gets exactly the port that was released |
| Allocator.RefusedExactlyWhenFull | internal/pkg/allocator/allocator.go:62-70 | no free port is found exactly when the number of live IDs is the size of the range |
| Allocator.HighWaterFromStart | internal/pkg/allocator/allocator.go:62-68 | at no point of a run is a port in use beyond start + most IDs held at once - 1 |
| Witnesses.TrailingCommaIsSpoilt | internal/pkg/proxy/relabel.go:95-106 | a sample with a trailing comma in its label block is none after injection |
| Witnesses.HyphenSpoilsEverySample | internal/pkg/proxy/relabel.go:43-56 | no sample of a target with the label `nova_my-key` reads back as itself with the labels added |
| Witnesses.InvalidNameCollides | internal/pkg/server/server.go:136-154 | two targets with distinct IDs and well-formed children, one with a label name that reads as labels, whose page shows a series twice |
| Witnesses.StrayBraceDoesNotCompose | internal/pkg/proxy/relabel.go:84-92 | a line with a stray brace on which two injections are not one |
| Witnesses.SameMetricIsDeclaredTwice | internal/pkg/server/server.go:130-154 | whatever two targets, a TYPE line that both their texts show is on the page twice |
| Witnesses.TwoColonsGrow | internal/pkg/netutil/netutil.go:157-158 | `a:b:c` changes when its normal form is normalised |
| Witnesses.LastGroupIsMisread | internal/pkg/netutil/netutil.go:142-149 | `2001:db8::1:5555` loses its last group |
| Witnesses.AliasIsMisread | internal/pkg/netutil/netutil.go:142-149 | a link-local address on `eth0:1` loses the alias |
| Witnesses.SecondCallRestarts | internal/pkg/supervisor/manager.go:97-106 | a new target at `10.0.0.1` is started, stopped and started |
| Witnesses.NamelessTargetCollides | internal/pkg/server/server.go:136-172 | a target without ID and name that shows a self-metric, which the page then shows twice |
| Witnesses.RenameIsNotPickedUp | internal/pkg/supervisor/manager.go:107-111 | a renamed target keeps its old name |
| Witnesses.ZonedLoopbackIsChosen | internal/pkg/discovery/libvirt/libvirt.go:216-219 | a table from which `::1%eth0` is chosen |

## Left out

- Process spawning, signals, pipes, socket files and file descriptors: a child is started, exits or fails to start, and nothing more is said of it.
- HTTP routing, `/targets`, `/probe`, `/health`, JSON and HTML output, TLS.
- The Nova, file and static providers and the XML side of libvirt: their target lists are arbitrary input of the pipeline. `resolveEndpoint` is modelled from the virsh output on.
- Time: timeouts and backoff are counted or nondeterministic steps; the scrape duration reaches the page already printed.
- The SIGHUP reload, which reconciles static targets only and so is no part of the convergence claim.
- `url.Parse`, CIDR parsing and containment, `strings.EqualFold` between arbitrary strings, and the route check are fixed functions that the resolver takes as parameters; `SetRouteChecker` is left out, since a changed checker makes the cache stale.
- `sanitizeSocketName` and socket paths: the mapping is not injective (`a.b` and `a_b` share a path), so no claim is made about it.
- A delivery is one step: a scrape between the consumer's writes into the shared label maps and its Reconcile could see them half done. Providers are taken to make the label maps of each list anew, as all of them do.
- Nothing is said of how the command builder treats a cancelled context: a cancelled loop about to start its child may still start it, which the standard command builder prevents.
- Locks: an update and a Reconcile are atomic with respect to each other's data, as their mutexes make them; the channel between them is interleaved step by step.
- `GetInstance`, `ListInstances`, `ActiveAllocations` and the health loop's ticker, which add no property.
- Sample values and timestamps: the exposition parser accepts every token over the alphabet of Go's floats and integers, a superset of what `strconv.ParseFloat` accepts.
- Integers are unbounded: counts and ports stay far below Go's limits, and `strconv.Atoi` overflow cannot produce a port in range.
