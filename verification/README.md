# pgdaemon: leader election and leaderless reconciliation

This project models the two coordination protocols of pgdaemon and proves what they guarantee over whole runs, for any
number of nodes and any interleaving. `dafny verify dfyconfig.toml` checks everything.

**Lease election** (`LeaseLogic`, `ElectionProtocol`, `ElectionSafety`, `ElectionTakeover`, `ElectionClass`,
`ElectionWitness`). Nodes poll a lease kept in a compare-and-set store, remember one observation each, and judge expiry
with their own clocks. A round is three steps: the clock is read, the lease is fetched and evaluated, and later the
store processes the request, if at all. `Run` reads the clock before it fetches (election.go:44-48), so the model keeps
the two apart: `lag` bounds how long after the reading the fetch takes effect, and the theorems say what that lag costs.
`gap` is a minimal distance between a store write and the fetches and writes around it; gap 0 asks for nothing.

**Reconciliation** (`ClusterLogic`, `Reconcile`, `LostStatus`, `Sequential`, `Convergence`, `NodeDaemon`,
`DaemonRefinement`, `ReconcileWitness`, `MixedWitness`). Every daemon repeatedly writes its node status, reads the
cluster state, computes a new status, compares and sets it if its meaning changed, and applies its role; a failover
command races with them. Requests may be delayed, lost, or processed after their sender gave up.

**Storage** (`SortedStore`, `StoreSpec`, `EtcdStore`, `DynamoStore`, `Layouts`). The etcd and the DynamoDB layout are
modelled key by key and both refine one abstract register and node table per cluster, which is what the reconciliation
protocol runs on.

## What the proofs found

- Mutual exclusion of `IsLeader` does not hold. Whatever Durations the nodes have, it fails exactly when there are two
  nodes and one has a Duration of at least two gaps (`ElectionWitness.TwoClaimantsIff`). With one common Duration and
  changes of leader through expiry only, n nodes can claim at once exactly when
  (n - 2) * (Duration - lag + 2 * gap) + 2 * gap <= Duration (`ElectionWitness.ClaimantsExactly`): two if the clock is
  read at the fetch and store accesses take time, more the earlier the clock is read. While the stored leader has not
  changed for a Duration there is at most one (`ElectionSafety.OneClaimantWhenStable`).
- The refresh branch (election.go:181) tests the remembered leader, not the fetched one, so a displaced leader takes the
  lease back at its next poll without waiting (`ElectionWitness.OldLeaderRetakesAtOnce`). Every other change of leader
  waits for the Duration, less the lag, plus two gaps (`ElectionSafety.MinimumTenure`).
- A lost compare-and-set is reported like a won one, so a daemon can apply a role from a status that was never
  committed; this is the only way in which a role comes from an uncommitted status (`Reconcile.RolesComeFromCommits`,
  `LostStatus.LostStatusNeverCommitted`). Without failovers that does harm only if the status the cycle had read named
  no primary: then two nodes can be configured as primary at once (`ReconcileWitness.LostCycleAppliesItsOwnStatus`).
  After a failover they can without any lost cycle (`ReconcileWitness.FailoverOverlaps`). If no failover wins, and no
  cycle applies what it computed from a status without a primary and lost, there is never more than one
  (`Sequential.OnePrimary`).
- Once the status has settled, one cycle of every listed node makes the committed primary the only listed node that is
  configured as primary, as long as no failover starts and the facts stay (`Convergence.OnePrimaryForGood`).
- The primary is sticky, and the status settles, also when a fetch returns an old status and an old table, as long as
  the status is not newer than the table. If a query may miss items, as a DynamoDB query may that asks for neither
  consistency nor a second page, neither holds (`MixedWitness.MixedReadsNeverSettle`): a daemon keeps the primary
  exactly when the table it read lists it (`Reconcile.PrimaryKeptIffListed`).
- Cluster names with slashes can disturb each other on one etcd server, by a single heartbeat. Which names can is
  decided exactly (`EtcdStore.FetchRightIffSeparate`).
- The comment of `ComputeNewClusterStatus` speaks of a nil result when nothing changes (logic.go:145-146); the code
  always returns a status, and the model follows the code.

## Assumptions

- `uuid.New()` yields version 4 UUIDs (section 5.4 of RFC 9562) that never repeat and are never the Nil UUID (section
  5.9). A UUID is a natural number, Nil is 0, and each draw is a number not used before.
- Clocks of different nodes run at the same rate. Their offsets do not matter (`LeaseLogic.ClockOffsetIrrelevant`), so
  one time line serves all. Times and durations are unbounded integers; Go's are 64-bit nanoseconds, which last for 292
  years.
- A node writes its status under its own, nonempty name, as `storeNodeStatus` arranges; the name is the host's when no
  flag gives one (pgdaemon/config.go:71-77), and the DynamoDB backend's constructor refuses an empty one.
- What a fetch may return is one of three modes (`Reconcile.Reads`). An etcd range read is one consistent snapshot. A
  DynamoDB query does not ask for consistent reads: if only its status may be old, or its whole answer is that of an
  earlier moment, reads are lagging; if it may miss items or mix items of different ages, they are mixed.
- While the reply of a lease fetch is under way a node may still answer `IsLeader` from what it remembered before; the
  model lets it do so until its next step.
- Marshalling loses nothing except that an omitted empty slice comes back as nil; field names that two records share
  (`status_uuid`) are honoured when a value is decoded as the wrong record. Keys are compared byte by byte.

## Model

| member | source | states |
|---|---|---|
| `LeaseLogic.RunsExactlyWhen` | pgdaemon/election/election.go:174-210 | A node with a memory runs against an existing lease if and only if it remembers holding the lease itself, or it remembers this very RVN and the remembered absolute deadline has passed |
| `LeaseLogic.EvaluationMeaning` | pgdaemon/election/election.go:153-211 | Everything an evaluation yields: what is remembered, since when and until when it counts (only a lease already known, and not held, keeps its old deadline), when the node runs, and the reason given, each as an if-and-only-if |
| `LeaseLogic.TimeLeftIsAbsolute` | pgdaemon/election/election.go:187-208 | However many times and whenever a non-holder polls an unchanged lease, the time left is Duration minus the time since its RVN was first seen; the node runs, and the lease counts as expired, exactly when that time has reached Duration |
| `LeaseLogic.ClockOffsetIrrelevant` | pgdaemon/election/election.go:109-138 | Shifting one node's clock by any constant changes neither its decisions nor its claims: only local time differences are used |
| `ElectionClass.Election.New` | pgdaemon/election/election.go:20-29 | Fails exactly for a duration that is not positive; otherwise a new election that has observed nothing |
| `ElectionClass.Election.RunInner` | pgdaemon/election/election.go:47-94 | The whole effect of a round on memory, store and answer: a failed fetch clears the memory; otherwise the memory is the evaluated observation, the store is what the other nodes' requests and this round's compare-and-set leave, and the answer is "did not run", an error if the reply is missing, and otherwise a win exactly if the backend, after the others' requests, still holds the lease that was fetched |
| `ElectionClass.Election.IsLeader` | pgdaemon/election/election.go:96-107 | True exactly when the remembered lease is the node's own and was seen at most its Duration ago |
| `ElectionClass.LeaseBackend.AtomicCompareAndSwapLease` | pgdaemon/etcd.go:161-181 | Stores the new lease if and only if the expected RVN is the stored one (none expected: none stored), also when only the reply is lost, and reports the comparison |
| `ElectionClass.StoreFollowsAttempts` | pgdaemon/election/election.go:69-91 | Between any two points of a run the stored lease is what the delivered compare-and-sets, applied in order, make of it |
| `ElectionClass.RoundRefinesProtocol` | pgdaemon/election/election.go:47-94 | For every round of every run whatever runInner's contract allows is what the run does to memory and store, and each answer is given exactly when it is due: a failed fetch, nothing sent, sent and not answered, answered and the history grew, answered and it did not |
| `ElectionProtocol.MatchIffCurrent` | pgdaemon/election/election.go:76-81 | A round's compare-and-set succeeds exactly when the store has not been written since that round's fetch |
| `ElectionProtocol.FetchMemOk` | pgdaemon/election/election.go:165-208 | After any fetch the remembered deadline (seen plus time left) is no earlier than the write of the observed lease plus gap plus its Duration, less the lag, and the memory before is still worth what it was |
| `ElectionProtocol.SentJustified` | pgdaemon/election/election.go:181-208 | A round that runs either found no lease, or remembered a lease of its own, or fetched no earlier than the found lease's write plus gap plus Duration, less the lag |
| `ElectionProtocol.StepKeepsInv` | pgdaemon/election/election.go:47-94 | Every step of every node keeps the invariant tying memories, requests in flight and the history of writes together |
| `ElectionProtocol.InvAlongRun` | pgdaemon/election/election.go:47-94 | That invariant holds in every state of every run |
| `ElectionProtocol.LeasesFormAChain` | pgdaemon/election/election.go:69-91 | Leases form one chain with distinct RVNs: a success replaces exactly the lease its own round fetched, and a success that expected no lease is the first write of all |
| `ElectionSafety.ClaimIsFresh` | pgdaemon/election/election.go:96-107 | Whoever may answer IsLeader at time t, also from the memory before a fetch whose reply is under way, led the lease in the store at some moment in [t - Duration, t] |
| `ElectionSafety.ClaimantsBounded` | pgdaemon/election/election.go:96-107 | In every run, with no scheduling assumption, at most 1 + (leader changes in the last Duration) nodes answer IsLeader at one instant |
| `ElectionSafety.OneClaimantWhenStable` | pgdaemon/election/election.go:96-107 | If the stored leader did not change during the last Duration, nobody but that leader answers IsLeader |
| `ElectionSafety.LeadersBounded` | pgdaemon/election/election.go:96-107 | The number of different nodes whose lease was in the store since a given time is at most one more than the leader changes since then |
| `ElectionSafety.MinimumTenure` | pgdaemon/election/election.go:181-208 | Every change of leader comes at least two gaps after the displaced lease was written; it either goes through expiry, and then comes at least Duration - lag + 2 * gap after, or through the refresh branch, and then the taker had led before |
| `ElectionSafety.NewcomerWaits` | pgdaemon/election/election.go:196-208 | A node that never led before displaces a lease only after it was in the store for Duration - lag + 2 * gap |
| `ElectionSafety.LeaderChangesSpaced` | pgdaemon/election/election.go:196-208 | With a common Duration and changes through expiry only, consecutive leader changes are Duration - lag + 2 * gap apart (a lag beyond the Duration counting as the Duration) |
| `ElectionSafety.ClaimantsVersusDuration` | pgdaemon/election/election.go:96-211 | Under the same conditions N >= 2 simultaneous claimants need (N - 2) * (Duration - lag + 2 * gap) + 2 * gap <= Duration |
| `ElectionSafety.AtMostTwoClaimants` | pgdaemon/election/election.go:96-211 | With a lag below four gaps, so with clock reading and fetch at one instant and writes that take time, never more than two nodes answer IsLeader |
| `ElectionSafety.AtMostThreeClaimants` | pgdaemon/election/election.go:44-48 | With 2 * lag < Duration + 6 * gap never more than three |
| `ElectionSafety.TwoClaimsNeedRoom` | pgdaemon/election/election.go:96-107 | However the lease changed hands, two simultaneous claimants mean that one of them has a Duration of at least two gaps |
| `ElectionSafety.YoungLeaseNotTaken` | pgdaemon/election/election.go:187-208 | While the stored lease is younger than gap + Duration - lag, a fetch by a node that is not the one remembered leader sends no request |
| `ElectionSafety.TimelyHolderStays` | pgdaemon/election/election.go:153-211 | If refreshes keep the stored lease younger than its Duration (less lag, plus gap), the stored leader never changes, no other node tries to replace an existing lease, and no other node ever answers IsLeader, whatever the others' polls, errors and restarts |
| `ElectionSafety.ClaimOutlivesFetch` | pgdaemon/election/election.go:48-55 | Until the reply of a fetch has arrived the node may still claim from what it remembered before, whatever the fetch found |
| `ElectionSafety.ForgetsAndClaimsNothing` | pgdaemon/election/election.go:20-52 | A node that starts anew, or whose fetch fails, remembers nothing and claims nothing, while its requests stay under way |
| `ElectionTakeover.DeadlineKept` | pgdaemon/election/election.go:187-197 | Once a non-holder remembers the stored lease, its deadline stays exactly the same through any number of further polls and other nodes' steps |
| `ElectionTakeover.BoundedTakeover` | pgdaemon/election/election.go:47-94 | A lease written at w is replaced by w + Duration + 2P if some node other than its holder completes an error-free poll in every window of length P, whatever it remembered and whoever else competes |
| `ElectionWitness.ClaimantsExactly` | pgdaemon/election/election.go:96-211 | In every configuration with a common Duration, n nodes can answer IsLeader at one instant, with changes through expiry only, if and only if there are n nodes and (n - 2) * (Duration - lag + 2 * gap) + 2 * gap <= Duration (for n >= 2) |
| `ElectionWitness.TwoClaimantsIff` | pgdaemon/election/election.go:165-172 | Whatever Durations the nodes have and however the lease changes hands, mutual exclusion of IsLeader fails exactly in the configurations with two nodes one of which has a Duration of at least two gaps |
| `ElectionWitness.OldLeaderRetakesAtOnce` | pgdaemon/election/election.go:179-185 | In every configuration with two nodes, whatever their Durations, a displaced leader can take the lease back, through the refresh branch, two gaps after it was displaced: exactly the least that MinimumTenure leaves |
| `ClusterLogic.SelectIntendedPrimary` | pgdaemon/logic.go:167-191 | A nonempty listed current primary stays; otherwise the first node without an error, the first node if all have errors, nobody if there is none |
| `ClusterLogic.SelectPrimaryMeaning` | pgdaemon/logic.go:167-191 | There is exactly one such choice for every table and every current primary |
| `ClusterLogic.BuildIntendedReplicas` | pgdaemon/logic.go:194-205 | The loop returns the other nodes' names in table order, nil if there are none |
| `ClusterLogic.OthersMembers` | pgdaemon/logic.go:194-205 | A name is a replica if and only if it is listed and is not the primary |
| `ClusterLogic.OthersCount` | pgdaemon/logic.go:194-205 | For distinct names there are n - 1 replicas (n if the primary is not listed), each once |
| `ClusterLogic.OthersInOrder` | pgdaemon/logic.go:194-205 | For distinct names the replicas are the table's names in table order with exactly the primary's left out |
| `ClusterLogic.OthersFiltered` | pgdaemon/logic.go:194-205 | For every table, also with repeated names, the replicas are the names at exactly those places that do not hold the primary's name, in table order |
| `ClusterLogic.ReasonsExact` | pgdaemon/logic.go:208-249 | A reason is reported if and only if what it claims is true of some node, with its name and counts, or it says that there are no nodes and there are none |
| `ClusterLogic.AllReasonsInReports` | pgdaemon/logic.go:215-246 | The reasons are the nodes' reports in table order, one after the other; each report has every reason that holds of its node once, the one about its role before the one about its replication |
| `ClusterLogic.ComputeClusterUnhealthyReasons` | pgdaemon/logic.go:208-249 | The loop lists each node's reasons in table order, or the single reason that there are no nodes |
| `ClusterLogic.ComputeNewClusterStatus` | pgdaemon/logic.go:147-164 | The computed status describes the table: the right primary, all others as replicas in table order, every reason that holds under them in table order, health Unhealthy exactly if there is one, metadata kept, no empty slice left non-nil |
| `ClusterLogic.ComputeDescribes` | pgdaemon/logic.go:147-164 | The same of Compute, about which the properties below are proved |
| `ClusterLogic.StatusCopy.NormalizeSlices` | pgdaemon/logic.go:136-143 | In place: no empty slice remains non-nil, and neither the meaning nor the metadata changes |
| `ClusterLogic.ClusterStatusChanged` | pgdaemon/logic.go:116-131 | False exactly when health, primary, reasons and replicas agree, the slices element by element: metadata and nil versus empty never count |
| `ClusterLogic.ComputeByFacts` | pgdaemon/logic.go:147-249 | The new status means the same whenever names, error presence, IsPrimary, replica counts, presence of replication status and the current primary agree; heartbeats change nothing |
| `ClusterLogic.ComputeIsIdempotent` | pgdaemon/logic.go:147-164 | Computing again on the result changes nothing, for every state, also with duplicate or empty names |
| `ClusterLogic.ComputedIsFixedPoint` | pgdaemon/logic.go:101-131 | A computed status, stamped and stored, counts as unchanged for every later table with the same facts |
| `ClusterLogic.HealthIsExact` | pgdaemon/logic.go:147-249 | For distinct names: healthy if and only if no node has an error, exactly one reports IsPrimary, it is the intended primary with n - 1 replica entries, and every other node has a replication status |
| `ClusterLogic.FixedPointPartitions` | pgdaemon/logic.go:151-152 | A settled status divides the table: the primary is listed, the replicas are exactly the other names in order, each once |
| `ClusterLogic.OneRoleEach` | pgdaemon/node.go:118-128 | Under a settled status exactly one listed node takes the primary branch and every other listed node the replica branch |
| `Reconcile.WinsIffCurrent` | pgdaemon/logic.go:101-112 | A compare-and-set wins exactly when no status was committed since the one it read, also when that read was stale |
| `Reconcile.StepKeepsInv` | pgdaemon/node.go:96-135 | Every step keeps the invariant over history, requests in flight and cycles, and never rewrites history |
| `Reconcile.InvAlongRun` | pgdaemon/node.go:96-135 | The invariant holds in every state of every run, under each read mode |
| `Reconcile.CommitsRewriteTheirPredecessor` | pgdaemon/logic.go:101-112 | Every committed status is, in meaning, the daemon computation or the failover rewrite of its immediate predecessor; it differs from it and carries a new UUID |
| `Reconcile.DaemonCommitsDescribe` | pgdaemon/logic.go:147-164 | Every status that a daemon commits describes the table its read saw, with the right choice of primary given the one committed before |
| `Reconcile.FailoverMovesOnlyPrimary` | pgdaemon/main.go:107-112 | A winning failover makes its target primary, which was not primary before, and leaves health, reasons and replicas as committed before |
| `Reconcile.CommitsAreSigned` | pgdaemon/logic.go:103-106 | Every committed status carries the UUID and the time of its writer's operation and the name of the daemon, or of the command line tool, that wrote it |
| `Reconcile.ViableSawCurrent` | pgdaemon/logic.go:101-112 | Unless reads are mixed, a request that can still win comes from a read of the run that saw a table which was current together with the status it read |
| `Reconcile.DaemonCommitsPartition` | pgdaemon/logic.go:147-164 | In every run a daemon's winning write is a fixed point for the table it saw and, if that lists anybody, partitions it, also right after a failover that broke the partition |
| `Reconcile.FailoverBreaksPartition` | pgdaemon/main.go:107-112 | Every winning failover breaks whatever partition the status before it was: it moves the primary and leaves the replicas |
| `Reconcile.ReadsAreSorted` | pgdaemon/etcd.go:108 | Under every read mode a fetch lists each node once, in name order |
| `Reconcile.ModesAreNested` | pgdaemon/dynamodb.go:166-173 | What snapshot reads allow lagging reads allow, and what those allow mixed reads allow |
| `Reconcile.RolesComeFromCommits` | pgdaemon/node.go:102-128 | A role applied is the node's role in a committed status (the one read if unchanged, its own if it won); otherwise the cycle lost, and something was committed between its read and its write |
| `LostStatus.LostStatusNeverCommitted` | pgdaemon/dynamodb.go:115-119 | The status a lost cycle goes on to apply is in no history, before or after |
| `Reconcile.PrimaryKeptIffListed` | pgdaemon/logic.go:167-175 | Under every read mode a daemon's commit keeps a chosen primary if and only if the table it read lists that primary |
| `Sequential.InsertOk` | pgdaemon/node.go:96-106 | A winning write can be moved back past the node writes that followed its read without changing the table or the rest of the history |
| `Sequential.InsertPlaces` | pgdaemon/node.go:96-106 | The commit then stands behind exactly the node writes before its read, and no other commit moves |
| `Sequential.EveryRunIsSequential` | pgdaemon/node.go:96-106 | Unless reads are mixed, every interleaved run commits the history of a sequential run that has the same node writes in the same order, and in which each commit is a request of the run placed where the table it read was current together with its predecessor: with snapshot reads exactly at its fetch |
| `Sequential.PrimaryChangesBounded` | pgdaemon/logic.go:167-191 | Unless reads are mixed, the committed primary changes at most 1 + 2k times, k being the failover writes that won |
| `Sequential.ListedPrimaryStays` | pgdaemon/logic.go:167-175 | A committed primary that was in the table when it was committed or before, whether chosen by a daemon or set by a failover, stays until the next winning failover, unless reads are mixed |
| `Sequential.ChosenOnce` | pgdaemon/logic.go:167-191 | Without failovers all nonempty committed primaries are the same, unless reads are mixed |
| `Sequential.OnePrimary` | pgdaemon/node.go:118-121 | Unless reads are mixed, while no failover has won and no cycle has applied a status that it computed from one without a primary and that lost, at most one node has ever been configured as primary; a lost cycle that had read a primary does no harm |
| `Sequential.ReadListsChosen` | pgdaemon/logic.go:167-175 | Unless reads are mixed, and without failovers, a fetch whose status names a primary also lists that primary |
| `Sequential.CyclesKeepRead` | pgdaemon/node.go:96-128 | Under the same conditions every cycle that read a primary goes on with that primary, whatever becomes of its write |
| `Convergence.ViableBreaksFixedPoint` | pgdaemon/logic.go:101-112 | If a daemon's request on these facts could still win, the current status is not settled for them |
| `Convergence.NewStatusShowsFacts` | pgdaemon/logic.go:147-164 | Unless reads are mixed, a status committed after the facts came to rest is only read together with a table that shows them |
| `Convergence.AtMostTwoMoreCommits` | pgdaemon/logic.go:101-249 | Once the facts stop changing and no failover starts, at most two more statuses are committed, whatever is in flight and however old statuses and tables are read; after the second the status is settled. Mixed reads need that the statuses committed since are read with the final facts |
| `Convergence.SettledForever` | pgdaemon/logic.go:101-131 | From a settled state heartbeats and cycles commit nothing, ever, as long as the current status is read with the settled facts |
| `Convergence.SettledForeverWithSnapshots` | pgdaemon/logic.go:101-131 | With snapshot reads that needs no assumption on the reads |
| `Convergence.OneCycleSettles` | pgdaemon/node.go:96-106 | When only daemons that see the final facts can still win, one cycle that read the current status and whose write reaches the store, or that finds nothing to change, means the status is settled for good |
| `Convergence.SettledCyclesAgree` | pgdaemon/node.go:118-128 | In a settled state a read of the current status and the facts leaves the cycle with nothing to write and ready to apply the committed status, which has exactly one listed node primary and every other a replica |
| `Convergence.RolesConverge` | pgdaemon/node.go:96-128 | In a settled and quiet run every listed node that has read and applied once has the role of the committed status, in every later state, and whatever cycle it runs then is about to apply that role again, as long as it reads the current status and the facts; with snapshot reads that needs no assumption |
| `Convergence.OnePrimaryForGood` | pgdaemon/node.go:118-128 | Once every listed node has completed one such cycle, exactly one of them is configured as primary, the committed one, and every other as its replica, in every later state |
| `Convergence.OneRoundConverges` | pgdaemon/node.go:96-128 | With snapshot reads, from rest to the right roles: one cycle whose write, if any, arrives, then one cycle of every listed node, and exactly one of them is configured as primary as long as things stay quiet |
| `ReconcileWitness.LostCycleAppliesItsOwnStatus` | pgdaemon/etcd.go:63-74 | A run with snapshot reads and no failover in which two nodes both take the primary branch, one for a status that was never committed; its last step is the only one that applies a status which lost and was computed from one without a primary |
| `ReconcileWitness.FailoverOverlaps` | pgdaemon/main.go:107-112 | A run with snapshot reads and no lost cycle applied in which two nodes are configured as primary, because the old one has not noticed a failover yet |
| `ReconcileWitness.EveryFailoverCostsTwo` | pgdaemon/logic.go:167-191 | The bound 1 + 2k is attained for every k: a run with snapshot reads in which k failovers win and the committed primary changes 1 + 2k times |
| `ReconcileWitness.TwoMoreCommitsHappen` | pgdaemon/logic.go:101-112 | The convergence bound is attained: a run in which two more statuses are committed after the facts come to rest |
| `MixedWitness.MixedReadsNeverSettle` | pgdaemon/dynamodb.go:166-173 | With mixed reads, for every n, n more statuses are committed after the facts came to rest, without a failover, and each moves the primary, because each query misses the current primary's item; every fetch of the run is what the fetch loop makes of an answer that such a query can give |
| `MixedWitness.OneNodeAnswerable` | pgdaemon/dynamodb.go:166-219 | Whatever other clusters write in between, a fetch that finds the current status and a single node of the table can be the result of a query that misses the others' items |
| `SortedStore.LessTotal` | pgdaemon/etcd.go:108 | Key order is total |
| `SortedStore.LessIsLexicographic` | pgdaemon/etcd.go:108 | The first difference of two keys decides their order, and a prefix comes before what it starts |
| `SortedStore.PutSorted` | pgdaemon/etcd.go:83 | A put keeps the map in key order |
| `SortedStore.PutThenGet` | pgdaemon/etcd.go:83 | A put changes exactly its own key |
| `SortedStore.CollectAfterPut` | pgdaemon/etcd.go:129-140 | Reading the node entries after a node put gives the table with that node inserted or replaced, in name order |
| `StoreSpec.TableHoldsLatest` | pgdaemon/etcd.go:77-88 | After any writes the table has one entry per node name ever written, carrying its latest value |
| `StoreSpec.NilMeansNoStatus` | pgdaemon/etcd.go:53-56 | A Nil UUID is read exactly when no status was committed |
| `StoreSpec.DecodeMeaning` | pgdaemon/logic.go:45-62 | Reading a status back changes neither meaning nor metadata, and leaves no slice empty that its encoding omits |
| `EtcdStore.EtcdBackend.AtomicWriteClusterStatus` | pgdaemon/etcd.go:52-75 | The two-key transaction on the shared map; a failed comparison is no error, and a lost reply does not undo it |
| `EtcdStore.CasKeyByKey` | pgdaemon/etcd.go:53-69 | If the comparison holds exactly the two status keys change, to the new status and its UUID; otherwise nothing does |
| `EtcdStore.EtcdBackend.WriteCurrentNodeStatus` | pgdaemon/etcd.go:77-88 | Puts the status under the backend's own node key and changes nothing else |
| `EtcdStore.EtcdBackend.FetchClusterState` | pgdaemon/etcd.go:105-147 | The loop over the range answer returns Fetch, including each error branch |
| `EtcdStore.FetchFailsExactly` | pgdaemon/etcd.go:105-147 | On any content of the server: not found exactly if nothing is under the prefix, otherwise a failure exactly if some entry there is no record or not under its own name, and then with what is wrong with the first one |
| `EtcdStore.KeyIsOwn` | pgdaemon/etcd.go:28-50 | For separate names a cluster's spec, status and status-uuid keys are keys of no other cluster and of no node |
| `EtcdStore.NodePrefixTellsNode` | pgdaemon/etcd.go:129 | For separate names the keys under a cluster's node prefix are exactly its own node keys |
| `EtcdStore.SlashFreeAreSeparate` | pgdaemon/etcd.go:28-50 | Names without slashes are separate |
| `EtcdStore.EtcdRefinesRegister` | pgdaemon/etcd.go:52-88 | In every reachable state the two status keys of a cluster hold one abstract register (the status-uuid key is the UUID embedded in the status, both absent when nothing was committed) and its node keys hold the table, if the other clusters' names are separate from its own |
| `EtcdStore.FetchUndoesWrites` | pgdaemon/etcd.go:105-147 | After any writes to any clusters with separate names a fetch returns the last committed status and every node's latest status, with no mismatch error and nothing of other clusters |
| `EtcdStore.NotFoundMeansEmpty` | pgdaemon/etcd.go:113-115 | Not found is answered only while neither a status nor a node status was written |
| `EtcdStore.OverlappingNamesLeak` | pgdaemon/etcd.go:129-138 | If c's and d's names are not separate, one node status written by a daemon of d makes every fetch of c fail with a name mismatch |
| `EtcdStore.FetchRightIffSeparate` | pgdaemon/etcd.go:105-147 | All operation sequences of a set of clusters leave every fetch of c right if and only if the name of each of them is separate from c's, which can be checked on the names alone |
| `DynamoStore.DynamoDBBackend.New` | pgdaemon/dynamodb.go:24-41 | Fails exactly for an empty table, cluster or node name |
| `DynamoStore.DynamoDBBackend.AtomicWriteClusterStatus` | pgdaemon/dynamodb.go:89-125 | The conditional put on the status item; a failed condition is no error |
| `DynamoStore.CasKeyByKey` | pgdaemon/dynamodb.go:89-125 | If the condition holds exactly the status item of that cluster changes, to the new status; otherwise nothing does, in any partition |
| `DynamoStore.DynamoDBBackend.WriteCurrentNodeStatus` | pgdaemon/dynamodb.go:127-145 | Puts the status under the backend's own node key and changes nothing else |
| `DynamoStore.DynamoDBBackend.FetchClusterState` | pgdaemon/dynamodb.go:166-219 | For whatever items the query answers, the loop returns FetchFrom, including each error branch |
| `DynamoStore.FetchFailsExactly` | pgdaemon/dynamodb.go:166-219 | For any answer of the query: not found exactly if it is empty, otherwise a failure exactly if some item is no record or not under its own name, and then with what is wrong with the first one |
| `DynamoStore.DynamoRefinesRegister` | pgdaemon/dynamodb.go:89-145 | In every reachable state each partition, whatever the cluster's name, holds the abstract register in its status item and the table in its node items |
| `DynamoStore.FetchUndoesWrites` | pgdaemon/dynamodb.go:166-219 | After any writes a fetch whose query sees the current items returns the last committed status and every node's latest status |
| `DynamoStore.StaleFetch` | pgdaemon/dynamodb.go:166-219 | Whatever a query misses and however old each item is, a fetch that finds anything returns a status once committed, or none, and of each node at most one value it once wrote, in name order, without an error |
| `DynamoStore.NotFoundMeansEmpty` | pgdaemon/dynamodb.go:178-180 | Not found is answered only while neither a status nor a node status was written |
| `Layouts.LayoutsAgree` | pgdaemon/logic.go:13-19 | Both layouts return the same nodes and statuses that differ at most in nil versus empty slices |
| `Layouts.CasIsDeliver` | pgdaemon/etcd.go:53-69 | The register's comparison, with Nil for nothing committed, decides as the protocol does |
| `Layouts.EtcdServesProtocol` | pgdaemon/etcd.go:105-147 | End to end: after k events of a protocol run, with other clusters' writes anywhere in between, an etcd fetch returns what the protocol lets a daemon read at that point |
| `Layouts.DynamoServesProtocol` | pgdaemon/dynamodb.go:166-219 | The same for DynamoDB and all cluster names, when the query sees the current items |
| `Layouts.DynamoServesMixedReads` | pgdaemon/dynamodb.go:166-219 | Any such answer at any point of a protocol run is one that mixed reads allow there |
| `NodeDaemon.WriteClusterStatusIfChanged` | pgdaemon/logic.go:101-112 | Writes exactly on a change of meaning, conditioned on the UUID read, what it was given with new UUID, source and time and nothing else changed; the answer is the same whether the comparison won or lost |
| `NodeDaemon.StoreNodeStatus` | pgdaemon/node.go:54-94 | The status written carries what Postgres reported, each field of each replica row and of the WAL receiver in its own field, or only the error |
| `NodeDaemon.PerformNodeTasks` | pgdaemon/node.go:96-135 | The whole effect of a cycle on store and role, for every fault of store, Postgres and PgBouncer and every interference between its fetch and its write; it answers with the first thing that fails, and with success exactly if nothing does |
| `NodeDaemon.PerformReconciliationCycle` | pgdaemon/node.go:42-52 | Reports first and performs the tasks on the resulting store, whether or not reporting worked |
| `NodeDaemon.Failover` | pgdaemon/main.go:98-122 | The whole effect of the command: refuses an empty target; otherwise writes the status it read with only primary and metadata changed, and says whether that was a change, not whether the write won |
| `DaemonRefinement.CycleRefinesProtocol` | pgdaemon/node.go:96-135 | For every cycle of a protocol run (read, processing of its request if any, role or failure), whatever performNodeTasks' contract allows in these surroundings is what the run does to the store, won, lost or never arrived, and to the node's role; success and each error are answered exactly when they are due; later fetches see the protocol's state |
| `DaemonRefinement.FailoverRefinesProtocol` | pgdaemon/main.go:98-122 | The same for the failover command, which reports a change exactly when the protocol sends a request |
| `DaemonRefinement.ReportIsHeartbeat` | pgdaemon/node.go:42-94 | Reporting a node's status is a heartbeat of the protocol |

## Left out

- Postgres itself (`pgdaemon/postgres.go`): systemctl, pg_basebackup, pg_rewind and SQL are not part of this model; applying a role is recording it.
- HTTP health checks, flags, UDP wake-ups, `extractPeerHostnames` and the select loop: they only decide when a cycle runs, and the model allows a cycle at any time.
- `show-cluster`, `SetClusterSpec` as a client method and `InitTable`: nothing in the protocols depends on them; a spec write is one of the store operations all the same.
- JSON and attribute-value encoding beyond nil versus empty slices and shared field names, including invalid UTF-8.
- 64-bit overflow of durations: `time.Duration` arithmetic is done on unbounded integers.
- The wording of health reasons and log comments: reasons are records of the same names and counts, so two different reasons are never equal.
- The field loop of `normalizeSlicesInStruct`: reflection is replaced by the two slice fields the status has.
- The commented-out etcd lease backend: the election runs on the compare-and-set contract it documents, not on its keys.
- DaemonRefinement.CycleRefinesProtocol: stated over the etcd backend only; `DynamoStore.DynamoDBBackend` offers the same operations, and `Layouts` relates both to the protocol.
- Sequential.EveryRunIsSequential: not for mixed reads, for which no table need ever have been current; `MixedWitness.MixedReadsNeverSettle` shows that its consequences fail there, and `Reconcile.PrimaryKeptIffListed` says exactly when a commit keeps the primary.
- ElectionTakeover.BoundedTakeover: assumes polls that complete, because without them nothing bounds the takeover; fairness of the store is part of "completes".
