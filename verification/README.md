# Gitaly: caches, pipes, replication and byte-stream machines, verified

This project models the parts of Gitaly and Praefect in which several actors share state, or in which
a byte stream is processed piecemeal, and proves what those parts are for. It is written for Dafny
4.11; `dafny verify dfyconfig.toml` checks all of it.

Concurrent components are machines. A `State` holds the shared files, cursors, rows or channels, an
`Action` is one atomic step (a system call, a channel operation, or a body that runs under a mutex),
and `After(h)` is the state that a list of actions leads to, if each of them is enabled in turn. A
theorem about a component is a statement about every such list. Failures, cancellations, timeouts and
the answers of the database are actions or parameters, so they can come at any point. Components
that one goroutine works through step by step are classes and methods with loops, each proved against
a plain function of its whole input.

| file | component |
|---|---|
| `Prelude.dfy` | bytes (modelled as `char`), `Option`, `Result` |
| `CacheKey.dfy` | the byte string that is hashed into the name of a cached response |
| `DiskCache.dfy`, `DiskCacheHits.dfy` | the disk cache's lease protocol between lookups, stores and mutators |
| `Cursor.dfy`, `Pipe.dfy`, `PipeResults.dfy` | positions with notifications; one writer and many readers on one file |
| `StreamCache.dfy`, `StreamRuns.dfy` | the stream cache's index and file store over those pipes |
| `Voting.dfy`, `VotingExact.dfy`, `VotingProgress.dfy` | weighted voters, quorums, and the subtransaction that counts votes |
| `Coordinator.dfy` | routing, classification of secondaries, replication jobs |
| `Generations.dfy`, `GenerationGuards.dfy`, `GenerationProgress.dfy` | recorded generations against what is on disk |
| `Replicator.dfy` | one replication job, and a batch of them |
| `ObjectInfo.dfy`, `Catfile.dfy` | `git cat-file --batch` headers and framing |
| `ProcessCache.dfy`, `Requests.dfy` | the cache of `git cat-file` processes, and requests that share it |
| `LockingWriter.dfy` | compare-and-swap on a file |
| `StderrBuffer.dfy`, `TrailerReader.dfy` | bounded and delayed byte streams |
| `Conflict.dfy`, `ConflictRoundTrip.dfy`, `ConflictLines.dfy` | parsing and resolving files with conflict markers |
| `ParallelPipeline.dfy`, `PipelineProgress.dfy` | the backup pipeline's lazily created workers |

## What turned out to need a condition

Each of these fails somewhere unless a condition holds. The conditions are lemmas, and so is how exact they
are. Where it takes several steps to break one, there is a run from the initial state that does.

- **Stale hits.** GetStream never serves a response older than the lookup, provided every stored response
  was computed after the generation it is filed under was written (`DiskCache.NoStaleHit`). A response
  computed after KeyPath returned is such a one (`DiskCache.LateIsFresh`). The caller in
  `internal/gitaly/service/smarthttp/cache.go:84-103` computes it concurrently. For a response stored
  under the current generation while no lease is pending, the condition is exact, and so is the
  caller's (`DiskCache.FreshExactly`). While a lease is pending no new lookup gets past it, and a lookup already
  under way is served nothing stale under the condition (`DiskCache.UnderWayIsFresh`).
  `DiskCache.EarlyResponseGoesStale` is a run in which it fails.
- **Votes.** Nobody commits unless the primary commits, provided no `stop` gives up after it has stopped
  an undecided primary whose vote the others can still carry (`Voting.NoCommitWithoutPrimary`).
  `subtransaction.stop` returns as soon as it meets a canceled voter, in map order, so this can happen
  (`VotingExact.InterruptedStopSplits`). The condition is exact at every step of every run
  (`VotingExact.SparedExactly`).
- **Waiting voters.** Nobody waits in vain: a voter without a result waits for a quorum that can still be
  had (`VotingProgress.WaitingHopes`). But the votes of voters that were stopped before they voted count
  as outstanding, so a voter can be left waiting when nobody can vote any more. Only such a stop does
  that (`VotingProgress.BlockedByStopped`, `VotingProgress.StoppedVoterBlocks`), and a cancellation ends
  it (`VotingProgress.EndingUnblocks`).
- **Generations.** Recorded generations never overstate contents if every step is careful: a job to the
  newest generation does not take its snapshot from a source that lacks a write in flight on its target,
  no mutator is routed to a replica onto which such a job is copying, and no copy takes away a write on
  which another job relies (`Generations.NeverOverstated`). This is exact at every step
  (`GenerationGuards.CarefulExactly`). It follows, for any number of mutators, if no job to the newest
  generation begins on a replica that takes part in a mutator, and no record of a replica is dropped
  while another job uses it as its source (`GenerationGuards.GuardedRunIsCareful`). With one mutator at a time
  the first of these holds if the second does and no participant's record is dropped
  (`GenerationGuards.SerialRunIsGuarded`). `GenerationGuards.ConcurrentMutatorsOverstate` breaks the first,
  and `GenerationGuards.DroppedSourceOverstates`, with a single mutator, the second.
- **Accessors.** A replica that counts as consistent has every acknowledged write, provided some replica
  is at the repository's generation (`Generations.AcknowledgedWritesAreServed`). Dropping the record of
  the only such replica, and nothing else, breaks that (`Generations.IntactExactly`), and then an older
  replica counts as consistent (`GenerationGuards.DroppedNewestMisleads`).
- **Piped output.** EOF means that a reader has the whole output of the create function if and only if
  every write of it succeeded (`Pipes.StreamsAreFaithful`). With a nil result of Wait it does, provided the
  create function does not return nil after a failed write (`StreamRuns.SingleSource`).
- **Dead `git cat-file` processes.** Reading an object to EOF gives all of it if and only if the process
  had printed all of it before it ended (`Catfile.CompleteExactly`); batchReader reports a plain EOF
  otherwise. A clean process that has ended goes back into the cache, so a later request can inherit it
  (`Requests.ServeAll` says which).
- **Trailers.** TrailerReader drops bytes that its source returns together with an error. A caller that
  goes on reading to the end gets the right body if none were dropped, and only then if what is left is
  as long as the trailer (`TrailerReaders.ReadAll`).
- **Adjacent conflicts.** Conflicts without a common line between them share the section ID of the first,
  whose choice decides all of them (`ConflictRoundTrip.AdjacentShareChoice`).
- **Locking writer.** Commit replaces exactly the version its writer saw, unless somebody who does not
  use the lock changes the target between Commit's check and the rename
  (`LockingWriter.ShelteredExactly`, `LockingWriter.ForeignChangeLost`). A directory that cannot be
  synced makes Commit fail after the rename has happened; the model keeps that. The comment above Commit
  says that all locks are removed by then; in fact the lock is gone only if Commit succeeds
  (`LockingWriter.CommitExactly`), and a Close that cannot remove the lock file leaves it for good
  (`LockingWriter.LockedExactly`).
- **Standard error.** The buffer does not depend on how the input is split, provided the separator is
  one byte, as it is for commands; for every longer separator it does depend on it
  (`StderrBuffer.ChunkIndependence`, `StderrBuffer.LongSeparatorsDepend`).

The comment above `filestore.Create` promises unique names
up to roll-over of a 64-bit counter; the theorems are stated for runs with fewer creations than that.

## Model

| member | source | states |
|---|---|---|
| `CacheKey.PaddedHexFits` | internal/cache/keyer.go:298-300 | a length below 2^32 is printed with exactly eight hexadecimal digits, which read back as that length |
| `CacheKey.SplitPrefixLen` | internal/cache/keyer.go:295-300 | a length-prefixed string can be split off whatever follows it |
| `CacheKey.EncodeInjective` | internal/cache/keyer.go:279-290 | two lists of equally many strings have the same encoding only if they are equal |
| `CacheKey.PreimageInjective` | internal/cache/keyer.go:263-293 | two lookups hash the same bytes if and only if version, method, generation, request and flags all agree |
| `DiskCache.SweepPending` | internal/cache/keyer.go:114-128 | a lookup goes on exactly when every listed lease is too old and could be removed; the removed files are exactly those too old, unless a removal fails |
| `DiskCache.ClearEnables` | internal/cache/keyer.go:217-235 | a clear sweep of a complete listing is what the machine's lookup waits for |
| `DiskCache.PublishedStep` | internal/cache/diskcache.go:343-357 | a change once published stays published, and only rewriting `latest` publishes it |
| `DiskCache.LatestStep` | internal/cache/keyer.go:58-93 | every step keeps: whatever changed after the generation in `latest` was written is by a lease that has not ended |
| `DiskCache.ReadLatestMoves` | internal/cache/keyer.go:237-253 | after a listing without live leases, the generation read is no older than the call |
| `DiskCache.StoreOk` | internal/cache/diskcache.go:270-310 | a stored response keeps every cached file no older than the generation it is filed under |
| `DiskCache.InvStep` | internal/cache/keyer.go:58-253 | every step of lookups, stores, leases, walker and clock keeps the protocol's invariant |
| `DiskCache.NoStaleHit` | internal/cache/diskcache.go:218-255 | in every run in which stored responses are no older than their generation, a response served by GetStream answers its call and was computed from a version at least as new as when the call was made |
| `DiskCache.LateIsFresh` | internal/cache/diskcache.go:270-310 | a run whose responses are computed after KeyPath returned is such a run |
| `DiskCache.StoredThenServed` | internal/cache/diskcache.go:218-310 | a response stored under the current generation is what an undisturbed lookup then gets |
| `DiskCache.FreshExactly` | internal/cache/diskcache.go:270-310 | with no lease pending, the hit on a response stored under the current generation is not stale if and only if the response is no older than its generation, which is so if and only if it was computed after KeyPath returned |
| `DiskCache.UnderWayIsFresh` | internal/cache/diskcache.go:218-255 | a lookup under way when the response is stored, with or without leases pending, gets exactly that response, and it is not stale if it is no older than its generation |
| `DiskCache.EarlyResponseGoesStale` | internal/gitaly/service/smarthttp/cache.go:84-103 | a run with short leases in which a response computed too early is served to a later lookup |
| `DiskCacheHits.LatestExactly` | internal/cache/keyer.go:78-93 | a generation that was written to `latest` or read from it is there later if and only if no lease began or ended since, the walker did not drop the file, and no lookup made another |
| `DiskCacheHits.LookupExactly` | internal/cache/keyer.go:217-253 | an undisturbed lookup is served exactly what is cached for its call under the generation in `latest` |
| `DiskCacheHits.StoredIsFound` | internal/cache/diskcache.go:218-310 | over runs: a stored response is served to every undisturbed lookup for its call, as long as nobody touched `latest` since its generation was learnt, nor the file, and no lease is pending |
| `DiskCacheHits.FirstStoreIsServed` | internal/cache/keyer.go:237-253 | from any state without `latest` and pending leases, a first store makes a generation and the next lookup is served its response |
| `DiskCacheHits.PendingExactly` | internal/cache/keyer.go:58-128 | a lease's pending file is there if and only if neither the lease nor a sweep has removed it, and it is stale if and only if an hour has passed since it was created |
| `DiskCacheHits.OverForGood` | internal/cache/diskcache.go:218-310 | a call that met a lease, failed, or stored its response is served nothing afterwards, whatever happens |
| `DiskCacheHits.GoesOnExactly` | internal/cache/keyer.go:95-128 | a lookup can go on after its listing if and only if every lease that was pending when the listing began has had its file removed since, or is stale |
| `DiskCacheHits.AbandonedLeasesExpire` | internal/cache/keyer.go:95-128 | from any state, an hour and a sweep later no lease is pending and nothing else has changed |
| `Cursors.Notifier.Notify` | internal/streamcache/cursor.go:96-101 | never blocks and leaves a token |
| `Cursors.CursorObject.Subscribe` | internal/streamcache/cursor.go:20-27 | adds a new subscriber without a token and changes nothing else |
| `Cursors.CursorObject.Unsubscribe` | internal/streamcache/cursor.go:29-47 | removes one subscription and closes the done channel exactly when none is left |
| `Cursors.CursorObject.SetPosition` | internal/streamcache/cursor.go:65-82 | only moves forward; when it does, every subscriber has a token afterwards, and otherwise no token changes |
| `Cursors.WithoutDistinct` | internal/streamcache/cursor.go:33-38 | removing one of several distinct subscribers removes it and nobody else |
| `Pipes.InvStep` | internal/streamcache/pipe.go:99-226 | every atomic step of the writer, of any reader and of file removal keeps the pipe's invariant |
| `Pipes.StreamsAreFaithful` | internal/streamcache/pipe.go:195-226 | what a reader got is a prefix of the file; EOF means the writer closed and all was received; then it is the entire output if and only if no write of the create function failed |
| `Pipes.NoLostWakeUp` | internal/streamcache/pipe.go:99-108 | whoever waits with nothing to receive has nothing to do yet |
| `Pipes.NoDeadlock` | internal/streamcache/pipe.go:195-211 | a waiting reader and a waiting writer never block each other; a blocked writer has an open reader; after the writer closed nobody stays blocked |
| `Pipes.ModesAreFinal` | internal/streamcache/pipe.go:123-141 | a broken pipe stays broken and a completed one stays completed with the same contents, over any further steps |
| `Pipes.ModesDecideOpening` | internal/streamcache/pipe.go:145-175 | a broken pipe has no subscriber, admits none and never yields success; a completed one opens exactly while its file is linked |
| `Pipes.BackPressure` | internal/streamcache/pipe.go:99-116 | the file is ahead of the fastest reader by at most the latest write |
| `PipeResults.ResultExactly` | internal/streamcache/cache.go:303-325 | over every run: the result is a success if and only if the create function returned nil, closing the file succeeded, and the pipe was not broken when it was closed |
| `PipeResults.EofAndSuccess` | internal/streamcache/pipe.go:195-226 | EOF and success give the whole output, if the create function does not return nil after a failed write |
| `PipeResults.ReceivedExactly` | internal/streamcache/pipe.go:195-226 | what a reader has received is the beginning of the file, exactly as long as what its reads returned |
| `PipeResults.ReadsToEnd` | internal/streamcache/pipe.go:195-226 | after any run that closed the pipe well, a reader that keeps reading gets the whole file and then EOF |
| `PipeResults.WriteOn` | internal/streamcache/pipe.go:99-121 | after any run in which some reader has caught up, a write stores and publishes everything and notifies every reader |
| `PipeResults.BrokenWhenSeen` | internal/streamcache/pipe.go:99-121 | in every run, a write finds the pipe broken only when all readers have closed before the end |
| `PipeResults.SleepsUntilPublished` | internal/streamcache/pipe.go:195-211 | in every run, a reader that has been woken is not woken again before more has been published |
| `StreamCache.NamesStep` | internal/streamcache/filestore.go:90-138 | below roll-over, a file name belongs to one create run for good |
| `StreamCache.InvStep` | internal/streamcache/cache.go:163-298 | lookups, failing creates, eviction and file removal keep index, names, pipes and streams in agreement |
| `StreamRuns.PipesRun` | internal/streamcache/cache.go:241-298 | the pipe of every create run in the cache has gone through a run of the pipe machine of its own |
| `StreamRuns.SingleSource` | internal/streamcache/cache.go:195-354 | a stream returned for a key reads the file of the very create run for that key whose error its Wait returns; that error is nil if and only if the create function returned nil, closing succeeded and the pipe was not broken; EOF with a nil error and an honest create function gives that run's whole output |
| `StreamRuns.StreamsAgree` | internal/streamcache/cache.go:327-330 | two streams of one run hold the same bytes as far as both have come |
| `StreamRuns.FailedIsForgotten` | internal/streamcache/cache.go:285-295 | the entry of a run is removed for its result exactly when the run has ended without success |
| `StreamRuns.IndexedExactly` | internal/streamcache/cache.go:195-221 | a create run is in the index for its key if and only if no creation, failed creation, eviction or forgotten failure for that key came after it |
| `StreamRuns.NamedExactly` | internal/streamcache/filestore.go:90-138 | below roll-over, the file of a create run has its name if and only if nobody removed that name since |
| `StreamRuns.SecondLookupHits` | internal/streamcache/cache.go:195-221 | while a run is in the index, a lookup for its key is a hit if and only if its file is there and its pipe not broken, and the stream reads and waits for that run |
| `StreamRuns.CreatedIsServed` | internal/streamcache/cache.go:195-298 | after any run below roll-over, a lookup can begin a create run, and when that writes some bytes and succeeds, the stream gets exactly these and EOF, its Wait returns nil, and the run is in the index |
| `StreamRuns.StreamReadsToEnd` | internal/streamcache/pipe.go:195-226 | after any run, a stream of a run that was closed well can read on to that run's whole file and EOF, whatever was evicted or removed |
| `Voting.Register` | internal/praefect/coordinator.go:414-447 | the primary weighs more than all secondaries together, and the threshold is the one the quorum theorems are about |
| `Voting.QuorumExactly` | internal/praefect/coordinator.go:414-447 | a voter set reaches the threshold if and only if it holds the primary and, with two or more secondaries, at least half of them |
| `Voting.ThresholdSound` | internal/praefect/transactions/transaction.go:78-112 | the threshold can be reached, exceeds half the votes, and is not reached by two disjoint sets |
| `Voting.InvStep` | internal/praefect/transactions/subtransaction.go:142-243 | casting, withdrawing, canceling and stopping keep: whoever committed has a quorum behind its vote |
| `Voting.Agreement` | internal/praefect/transactions/subtransaction.go:114-243 | in every run, whoever commits voted as the primary did, together with at least half of two or more secondaries |
| `Voting.WithdrawalsFit` | internal/praefect/transactions/subtransaction.go:167-178 | the unsigned count from which a withdrawn vote is subtracted never underflows |
| `Voting.NoCommitWithoutPrimary` | internal/praefect/transactions/subtransaction.go:56-100 | nobody commits unless the primary commits, if no stop gives up after stopping an undecided primary whose vote can still win |
| `VotingExact.SparedExactly` | internal/praefect/transactions/subtransaction.go:74-243 | after any run that met that condition, and for any next step: a continuation in which somebody commits without the primary exists if and only if the step breaks the condition |
| `VotingExact.InterruptedStopSplits` | internal/praefect/transactions/subtransaction.go:74-100 | a run in which a secondary commits and the primary does not |
| `VotingProgress.WaitingHopes` | internal/praefect/transactions/subtransaction.go:180-209 | in every run, a voter that has voted and has no result is not woken, no vote has reached the threshold, and some vote can with all that are outstanding |
| `VotingProgress.CastWaitsExactly` | internal/praefect/transactions/subtransaction.go:180-243 | after a vote, its voter waits if and only if that is so; otherwise everyone who has voted has a result |
| `VotingProgress.AllVotedDecides` | internal/praefect/transactions/subtransaction.go:245-275 | in every run, when all have voted, everyone has a result and is woken |
| `VotingProgress.WokenAreDecided` | internal/praefect/transactions/subtransaction.go:277-323 | in every run, whoever committed is woken, and nobody who has voted is woken without a result |
| `VotingProgress.QuorumDecides` | internal/praefect/transactions/subtransaction.go:211-243 | in every run, once a vote has a quorum, those who cast it have committed and those who cast another have failed, unless they were withdrawn, canceled or stopped |
| `VotingProgress.UnanimousCommits` | internal/praefect/transactions/subtransaction.go:114-243 | in every run in which everyone just votes, in any order, and all vote the same, everyone commits and is woken |
| `VotingProgress.LateVoter` | internal/praefect/transactions/subtransaction.go:114-140 | after a quorum, a voter can still vote, gets its result at once, and changes nobody else's |
| `VotingProgress.BlockedByStopped` | internal/praefect/transactions/subtransaction.go:198-209 | in every run, somebody waits while nobody can vote any more only if a voter was stopped before it voted |
| `VotingProgress.StoppedVoterBlocks` | internal/praefect/transactions/subtransaction.go:74-100 | a run in which that happens to the primary |
| `VotingProgress.ResultsFinal` | internal/praefect/transactions/subtransaction.go:211-220 | whatever happens, a voter that has a result keeps it |
| `VotingProgress.EndedForGood` | internal/praefect/transactions/subtransaction.go:56-100 | after a cancellation or a completed stop, whoever had no result is canceled or stopped, and stays so |
| `VotingProgress.EndingUnblocks` | internal/praefect/transactions/subtransaction.go:56-100 | after any run a cancellation is possible, a stop comes through if and only if nobody was canceled or stopped before, and either leaves nobody undecided or waiting |
| `Coordinator.HealthyNodes` | internal/praefect/router_per_repository.go:92-116 | the healthy storages in order with their connections; fails exactly for an unknown virtual storage, no healthy storage, or one without a connection |
| `Coordinator.RouteAccessor` | internal/praefect/router_per_repository.go:145-181 | a healthy node, consistent unless the primary is forced; fails exactly when there is none |
| `Coordinator.RouteMutator` | internal/praefect/router_per_repository.go:183-250 | succeeds exactly with a healthy, consistent and assigned primary, when all lookups do; usable assigned storages take part and all others are replication targets |
| `Coordinator.OtherNodes` | internal/praefect/router_per_repository.go:280-290 | every configured storage but the primary, in map order, with its own connection |
| `Coordinator.SplitByHealth` | internal/praefect/router_per_repository.go:302-320 | comparing nodes splits the chosen storages by health: healthy ones take part and the others are targets |
| `Coordinator.RouteCreation` | internal/praefect/router_per_repository.go:255-327 | succeeds exactly when the virtual storage is known, some node is healthy, all are connected and an ID was reserved; a random healthy primary, and the assigned others split by health |
| `Coordinator.AssignedExactly` | internal/praefect/router_per_repository.go:292-300 | together with the primary as many distinct configured storages as the replication factor says, or all of them if it is not set |
| `Coordinator.RoutingConserves` | internal/praefect/router_per_repository.go:219-233 | routing a mutator loses and duplicates no assigned storage |
| `Coordinator.Classify` | internal/praefect/coordinator.go:823-920 | whether the primary is dirtied, who is updated and who is outdated, each by a condition on votes and errors rather than by branch |
| `Coordinator.FollowersConserve` | internal/praefect/coordinator.go:904-917 | each secondary is updated or outdated, once |
| `Coordinator.Partition` | internal/praefect/coordinator.go:864-917 | each assigned storage but the primary is in exactly one of the two lists, and nobody else is in either |
| `Coordinator.QueueJobs` | internal/praefect/coordinator.go:963-1041 | one job for each outdated storage whose event the queue accepted, sourced at the primary; deletions and renames are passed on as such, nothing else is, and no job is a creation; none when the store could not be updated; success exactly when nothing failed |
| `Coordinator.Finalize` | internal/praefect/coordinator.go:778-821 | from any split of the assigned storages: nothing happens to a primary that was not dirtied; otherwise each of the others followed the primary or gets exactly one job, up to events that the queue refused |
| `Coordinator.Mutate` | internal/praefect/coordinator.go:454-595 | end to end, for any health, votes, errors and refused events: each assigned storage but the primary either followed the primary and gets no job, or gets exactly one |
| `Coordinator.Create` | internal/praefect/coordinator.go:454-595 | the same for the creation of a repository, over the storages that it is assigned to |
| `Generations.InvStep` | internal/praefect/replicator.go:73-144 | any number of mutators, jobs, failures and dropped records at any step keep every recorded generation covered by the contents, if the step is careful |
| `Generations.NeverOverstated` | internal/praefect/coordinator.go:963-970 | in every such run, a replica holds every write recorded up to its own generation |
| `GenerationGuards.CarefulExactly` | internal/praefect/replicator.go:73-144 | after any careful run, and for any next step: careful steps can go on to a record that overstates if and only if the step was not careful |
| `GenerationGuards.GuardedRunIsCareful` | internal/praefect/replicator.go:75-108 | with any number of mutators, a run is careful if no job to the newest generation begins on a participant and no source in use by another job loses its record |
| `GenerationGuards.SerialRunIsGuarded` | internal/praefect/replicator.go:75-108 | one mutator at a time keeps jobs away from participants, if neither these nor sources in use lose their records |
| `GenerationGuards.BeginExactly` | internal/praefect/replicator.go:55-86 | after any careful run, a job to the newest generation that begins on a replica and takes its snapshot leads to an overstatement if and only if the replica takes part in a mutator, as long as these have applied nothing |
| `Generations.IntactExactly` | internal/praefect/datastore/repository_store.go:171-255 | a step loses the last replica at the repository's generation if and only if it drops that replica's record as invalid |
| `Generations.IntactRun` | internal/praefect/datastore/repository_store.go:171-255 | in every careful run without such a step some replica is at the repository's generation |
| `Generations.AcknowledgedWritesAreServed` | internal/praefect/datastore/repository_store.go:499-538 | once a mutator has raised the generation, its write is on every replica that counts as consistent at any later time at which some replica is at the repository's generation |
| `GenerationProgress.IncrementExactly` | internal/praefect/datastore/repository_store.go:171-226 | after any careful run, recording a mutator raises exactly those of the primary and the updated secondaries that were at the repository's generation, and they alone count as consistent; if there are none, nothing changes |
| `GenerationProgress.MutatorGoesThrough` | internal/praefect/coordinator.go:930-970 | after any careful run, a mutator can be routed, applied and recorded, and then each participant has its write and the repository's new generation, and nobody else counts as consistent |
| `GenerationProgress.LaggingIsRepaired` | internal/praefect/replicator.go:55-147 | after any careful run, a job from a replica at the repository's generation to one that is any number of generations behind, or unknown, goes through and leaves it there with every recorded write |
| `GenerationGuards.DroppedNewestMisleads` | internal/praefect/datastore/repository_store.go:499-538 | a careful run after which a replica counts as consistent and lacks an acknowledged write, because the only newer record was dropped |
| `GenerationGuards.ConcurrentMutatorsOverstate` | internal/praefect/replicator.go:73-144 | a run with two mutators in flight after which a replica is recorded at a generation whose write it has lost |
| `GenerationGuards.DroppedSourceOverstates` | internal/praefect/replicator.go:97-108 | the same with a single mutator, after a record was dropped while another job used that replica as its source |
| `Replicator.Cluster.GetReplicatedGeneration` | internal/praefect/datastore/repository_store.go:287-346 | answers the source's generation, and refuses exactly when the target has a record and the source none that is higher |
| `Replicator.Finish` | internal/praefect/replicator.go:93-146 | the target's record changes only after a complete copy; whatever fails leaves all records alone |
| `Replicator.Replicate` | internal/praefect/replicator.go:55-147 | what one job does to records and replicas, error by error, and that it is a run of the generations machine; when all goes well, a target that is behind gets its source's record and contents, however far behind it was |
| `Replicator.SortByState` | internal/praefect/replicator.go:622-626 | the events, in order, by the state they end in |
| `Replicator.HandleNode` | internal/praefect/replicator.go:606-646 | a batch that cannot be dequeued is none; otherwise each state whose acknowledgement succeeds gets exactly its events, and the others get none |
| `Replicator.EventsConserved` | internal/praefect/replicator.go:622-643 | every dequeued event is acknowledged in exactly one state |
| `Replicator.StatesExactly` | internal/praefect/replicator.go:667-689 | an event that went well is completed; one that failed is dead if it has no attempt left and failed otherwise |
| `ObjectInfos.HeaderRoundTrip` | internal/git/catfile/objectinfo.go:34-65 | the header that git prints for an object parses to that object's ID, type and size |
| `ObjectInfos.ParseIntExactly` | internal/git/catfile/objectinfo.go:55-59 | a size, with or without a sign, parses to its value if and only if that fits into 64 bits |
| `ObjectInfos.MissingIsNotFound` | internal/git/catfile/objectinfo.go:41-43 | a line says "not found" if and only if it is something followed by a space and "missing", as git answers for a missing object |
| `ObjectInfos.AmbiguousIsInvalid` | internal/git/catfile/objectinfo.go:45-59 | git's answer for an ambiguous name is an error, and not "not found" |
| `Catfile.FrameParses` | internal/git/catfile/objectinfo.go:34-40 | the first line of a frame tells what the answer is, and the rest of the frame is the body |
| `Catfile.BatchProcess.Request` | internal/git/catfile/batch_process.go:75-120 | refused exactly when an earlier object has unread bytes; a process that has ended or ends before it answers is an error; otherwise answers for this revision; the counter equals the bytes of the frame not yet consumed in every case |
| `Catfile.BatchProcess.HasUnreadData` | internal/git/catfile/batch_process.go:129-134 | true exactly when more than the frame's newline is unread |
| `Catfile.BatchReader.Read` | internal/git/catfile/batch_process.go:122-148 | the next part of the object it was opened for; EOF exactly at its end or where the output of a process that has ended stops; never the panic for too many bytes |
| `Catfile.Session` | internal/git/catfile/batch_process.go:75-148 | over any requests, partial reads, mismatches, missing objects, changing answers and a process that ends at any point, the client sees exactly what a client without framing would see |
| `Catfile.IdealReadsConcatenate` | internal/git/catfile/batch_process.go:113-119 | whatever the read sizes, what was read is a prefix of what the process printed of the object, and all of that after EOF |
| `Catfile.CompleteExactly` | internal/git/catfile/batch_process.go:113-119 | after EOF it is the whole object if and only if the process had printed that much |
| `ProcessCache.BatchCache.constructor` | internal/git/catfile/batch_cache.go:99-145 | an empty cache; a limit that is not positive means 100 |
| `ProcessCache.BatchCache.Lookup` | internal/git/catfile/batch_cache.go:291-299 | an entry with the key, or none has it |
| `ProcessCache.BatchCache.Delete` | internal/git/catfile/batch_cache.go:301-310 | takes out that entry and closes its batch exactly if asked to |
| `ProcessCache.BatchCache.EnforceTTL` | internal/git/catfile/batch_cache.go:272-279 | evicts and closes exactly the expired entries, although it looks only at the head |
| `ProcessCache.BatchCache.Evict` | internal/git/catfile/batch_cache.go:282-289 | leaves nothing and closes everything |
| `ProcessCache.BatchCache.Checkout` | internal/git/catfile/batch_cache.go:253-268 | hands over the open, clean batch of that key, which then has no other owner |
| `ProcessCache.BatchCache.Add` | internal/git/catfile/batch_cache.go:229-246 | replaces the key, keeps the newest within the limit, and closes exactly the batches that leave |
| `ProcessCache.ReturnWhenDone` | internal/git/catfile/batch_cache.go:211-225 | a batch comes back exactly when it is open and clean; one with unread data is closed instead |
| `ProcessCache.Obtain` | internal/git/catfile/batch_cache.go:188-208 | the cached process whenever there is one for the key, and otherwise a new and living one; open, clean and owned by the request alone |
| `Requests.Admit` | internal/git/catfile/batch_cache.go:174-208 | a request that arrives while others hold processes gets one that nobody else holds and that is not in the cache |
| `Requests.ActOn` | internal/git/catfile/batch_process.go:75-148 | what one request does on its process is seen by it as without framing, and leaves the cache and all other requests alone |
| `Requests.Dismiss` | internal/git/catfile/batch_cache.go:211-246 | a request that leaves, whatever it left unread, keeps cache and other requests in order |
| `Requests.ServeAll` | internal/git/catfile/batch_cache.go:161-310 | over any interleaving of requests, keys, cache sizes, sweeps and dying processes, each request sees exactly what it would see alone on a process of its own, or on one that had ended; the latter only for keys whose processes ended under somebody |
| `LockingWriter.MutualExclusion` | internal/safe/locking_file_writer.go:125-163 | in every run at most one writer holds the lock, and the lock file exists while it does |
| `LockingWriter.NoLostUpdate` | internal/safe/locking_file_writer.go:168-190 | each commit replaces exactly the version its writer saw, so of writers that saw one version at most one commits |
| `LockingWriter.CooperatingWriters` | internal/safe/locking_file_writer.go:39-84 | with cooperating writers only, the same holds for writers that saw no file |
| `LockingWriter.ShelteredExactly` | internal/safe/locking_file_writer.go:177-183 | a change by somebody else after Commit's check is lost if and only if it changed the target |
| `LockingWriter.ForeignChangeLost` | internal/safe/file_writer.go:70-96 | a run in which that happens |
| `LockingWriter.LockedExactly` | internal/safe/locking_file_writer.go:97-163 | in every run, the lock file is there if and only if a writer holds the lock or a holder has closed without being able to remove it |
| `LockingWriter.UpdateGoesThrough` | internal/safe/locking_file_writer.go:125-190 | after any run in which neither is so, a new writer can lock and commit: it replaces the version it saw, and the lock is free again |
| `LockingWriter.LockExactly` | internal/safe/locking_file_writer.go:125-149 | Lock succeeds if and only if the target is still what the writer saw and there is no lock file; otherwise nothing changes |
| `LockingWriter.CommitExactly` | internal/safe/locking_file_writer.go:165-190 | Commit succeeds if and only if the target is still what the writer saw, the writer is unused and all calls succeed; what happens to target and lock in every other case |
| `LockingWriter.CloseFrees` | internal/safe/locking_file_writer.go:95-123 | after any run an open or locked writer can be closed, which leaves the target alone and frees the lock if its file can be removed |
| `LockingWriter.OneAttempt` | internal/safe/file_writer.go:70-96 | in every run, a writer that has come to the rename once never replaces the target again |
| `StderrBuffer.NewBuffer` | internal/command/stderrbuffer.go:23-38 | negative limits are refused; an empty separator means a newline |
| `StderrBuffer.Buffer.Write` | internal/command/stderrbuffer.go:40-83 | accepts everything and leaves the buffer that the whole-input function says |
| `StderrBuffer.WrittenIsFold` | internal/command/stderrbuffer.go:40-83 | with a one-byte separator, one Write is a fold over its bytes |
| `StderrBuffer.ChunkIndependence` | internal/command/stderrbuffer.go:40-83 | however the same bytes are split over Writes, the buffer is the same |
| `StderrBuffer.LongSeparatorsDepend` | internal/command/stderrbuffer.go:68-78 | for every longer separator there are limits and an input for which the split matters |
| `StderrBuffer.Bounds` | internal/command/stderrbuffer.go:10-13 | whatever is written, the buffer stays within its limit and no line exceeds the line limit |
| `TrailerReaders.TrailerReader.constructor` | internal/git/gitio/trailer.go:25-36 | starts with an empty buffer in front of the whole source |
| `TrailerReaders.TrailerReader.Read` | internal/git/gitio/trailer.go:54-80 | returns the next part of the source without its trailer, as much as is buffered and asked for; EOF exactly when all of that has been returned; fails exactly when the source does, and then loses the bytes that came with the error |
| `TrailerReaders.TrailerReader.Trailer` | internal/git/gitio/trailer.go:41-52 | exactly the last N bytes once the body has been returned, and otherwise which error |
| `TrailerReaders.ReadAll` | internal/git/gitio/trailer.go:8-80 | for every source, chunking and buffer sizes, the reads add up to the source minus its last N bytes, and Trailer yields those N or fails if there are fewer, when no bytes came with an error; when some did and N or more are left, the body is wrong |
| `TrailerReaders.Drain` | internal/git/gitio/trailer.go:38-80 | reading until EOF comes to an end for every source that delivers something or ends each time, with the whole body and then the trailer |
| `Conflict.Split` | internal/git/conflict/parser.go:158-180 | the scanner with Parse's split function yields the file's lines, carriage returns included, whether or not the last one has its newline |
| `Conflict.Parse` | internal/git/conflict/parser.go:132-245 | the scan loop, with the markers for the two paths, equals a fold over the file's lines, with the size limits and errors of the code |
| `Conflict.Resolve` | internal/git/conflict/parser.go:76-122 | the loop equals a fold over the parsed lines, and fails exactly when that does |
| `ConflictRoundTrip.ParsePrinted` | internal/git/conflict/parser.go:182-227 | a file made of common lines and conflicts parses to those lines, each with its side and its place in either file |
| `ConflictRoundTrip.AcceptsExactly` | internal/git/conflict/parser.go:182-244 | of the files without remarks, exactly such files are accepted |
| `ConflictLines.RemarkExactly` | internal/git/conflict/parser.go:199-211 | a file with a remark is accepted if and only if the lines before it can be scanned and no marker follows it; what follows is on neither side |
| `ConflictLines.SizeLimitExactly` | internal/git/conflict/parser.go:158-170 | an empty file and one of 200 KiB or more are refused, and no other is refused for its size |
| `ConflictLines.ParseKeepsLines` | internal/git/conflict/parser.go:182-227 | for every accepted file, the payloads are its lines without the markers, in order |
| `ConflictLines.PlacesExactly` | internal/git/conflict/parser.go:212-226 | for every accepted file, each line's three indices count the lines before it, all of them and those of either side's file; remarks count for none |
| `ConflictRoundTrip.SectionKeyInjective` | internal/git/conflict/parser.go:52-55 | within one file, section IDs are equal if and only if the sections start at the same place |
| `ConflictRoundTrip.OwnKeyAbsentLater` | internal/git/conflict/parser.go:91-93 | conflicts separated by a common line have distinct section IDs |
| `ConflictRoundTrip.ResolvePieces` | internal/git/conflict/parser.go:83-114 | for any common lines and conflicts, adjacent ones included: resolving keeps common lines and the chosen side of each conflict, and fails exactly when a conflict has no valid choice |
| `ConflictRoundTrip.AdjacentShareChoice` | internal/git/conflict/parser.go:83-114 | the choice for the first of adjacent conflicts decides all of them |
| `ConflictRoundTrip.RoundTrip` | internal/git/conflict/parser.go:76-245 | print, parse and resolve with any choice for each conflict: out come the common lines and the chosen sides, ended as our file ends |
| `ConflictRoundTrip.PrintRoundTrip` | internal/git/conflict/parser.go:76-245 | the same for the file that ends every line with a newline, for any choices |
| `ConflictRoundTrip.ContentOrSections` | internal/git/conflict/parser.go:79-81 | without sections a resolution is its content, byte for byte; with sections its content does not matter |
| `ConflictRoundTrip.HeadRebuildsOurs` | internal/git/conflict/parser.go:116-121 | choosing "head" everywhere gives back our file byte for byte |
| `ParallelPipeline.BoundedParallelism` | internal/backup/pipeline.go:232-300 | at most `parallel` commands execute at once when that is positive, and at most `parallelStorage` of one storage when that is |
| `ParallelPipeline.DrainExecutesAll` | internal/backup/pipeline.go:218-228 | when Done returns, exactly the accepted commands have been executed, each once |
| `ParallelPipeline.DrainProceeds` | internal/backup/pipeline.go:257-300 | after Done was called, some worker can move until all have left |
| `PipelineProgress.EveryCommandCanRun` | internal/backup/pipeline.go:203-300 | in every run before Done, a command whose Handle call waits can be executed by the work of the pipeline alone, if and only if the limits allow for a worker |
| `PipelineProgress.LimitsAreReached` | internal/backup/pipeline.go:183-300 | any distinct commands within both limits can execute at the same time |
| `PipelineProgress.DrainCompletes` | internal/backup/pipeline.go:218-228 | in every run in which Done was called, the workers can come to an end on their own, with every accepted command executed |
| `PipelineProgress.CanceledNeverRuns` | internal/backup/pipeline.go:203-216 | a command whose Handle call gave up is never executed |

## Left out

- SHA-256, SHA-1 and UUIDs: theorems are about what is hashed, and generation IDs are taken to be fresh.
- Leases that outlive the hour after which they count as stale, and StartLease calls that fail: `DiskCache.NoStaleHit` assumes that a lease rewrites `latest` before its pending file counts as stale.
- Several repositories in one disk cache directory: they share no file of the protocol.
- Read errors and the `sendfile` path of pipe readers: both use the same waiting and position code.
- Overflow of the cursors' 64-bit positions and of the pipe's file size.
- NullCache and the test-only logging cache of the stream cache.
- A failing create removes the index entry by key and may drop a newer one; the machine allows that, and nothing more is claimed about it.
- Transactions with several subtransactions, and voters with equal names: `Voting` models one subtransaction over distinct voters.
- Election strategies other than per-repository primaries.
- Coordinator.RouteCreation: a replication factor above the number of storages is excluded; so it is by the configuration (internal/praefect/config/config.go:244-249).
- Generations: dropping a record together with the repository's own row; jobs of other kinds than updates.
- Replicator.HandleNode: the log of events that were not acknowledged, health updates and the queue's own SQL.
- Revisions with a newline in them, which git would read as two requests.
- ObjectInfos: sizes that git does not print, such as negative ones, which the integer parser accepts.
- Lines starting with a backslash in conflict files: excluded from the round trip, which the code does not keep for them (`ConflictLines.RemarkExactly`).
- The accumulated error of the parallel pipeline.
- gRPC, SQL, metrics, logging, tracing, contexts, configuration and process spawning.
