# Verification of bydb's state machine

A Dafny 4.11 model of the replicated on-disk state machine of bydb, a distributed document database
in Go, with proofs about it. `dafny verify dfyconfig.toml` checks everything.

## What is modelled

bydb's state machine takes batches of log entries (`Update`), decides each entry against an in-memory
queue of accepted but unwritten commands laid over 36 on-disk shards, and later writes the queue shard
by shard (`Sync`). A GET looks in the queue first and then on disk. The promise is that all of this
looks like one plain map from partition to id to document, executing the log one entry at a time.

| file | contents |
|---|---|
| `Basics.dfy`, `Commands.dfy` | wrappers; documents, commands, document keys and when two partitions share one |
| `CommandParser.dfy` | the nine text formats, the format table, the grammar they accept, printing |
| `PlainStore.dfy` | the reference: the plain map and the execution of a log on it |
| `PendingQueue.dfy` | the queue: lookups, per-shard slices, validity, the store it stands for over another |
| `ShardStore.dfy` | the shard: buckets, index batch, disk lookups, the commit transaction, hit resolution; class `Shard` |
| `DiskView.dfy` | the store a set of shards holds; committing slices shard by shard |
| `Deciding.dfy`, `Conservation.dfy` | how a batch is decided; independence of the shard order; nothing lost or written twice |
| `Overlay.dfy` | GET and the one-entry decision, each with its exact condition |
| `Batches.dfy` | conflict-free batches as sequences of one-entry Updates |
| `Snapshots.dfy` | what an Update does of any batch; exactly when it is valid, committable, plain, or a sequence |
| `Conflicts.dfy` | the inputs on which the code parts from the plain map |
| `Runs.dfy`, `FirstStart.dfy` | whole runs with Syncs and restarts; refinement; conditions on the log alone |
| `Recovery.dfy`, `MidSync.dfy` | the replay index; crashes outside a Sync, once or repeatedly, and inside one |
| `Locking.dfy` | the optimistic lock over whole logs |
| `IndexAgreement.dfy` | the search index against the stored documents; search |
| `ReplayIndex.dfy` | the decimal replay index Sync stores and Open reads |
| `StateMachine.dfy` | class `ByStateMachine`: the methods themselves, loop by loop, proved against the functions above |
| `Lifecycle.dfy` | the first opening, the partitions it serves, the index an Update and a Sync leave for the next opening |
| `Protocol.dfy` | text in, code and store out: what each write and a GET do, written out |

JSON decoding is a parameter: every theorem holds for every partial function from text to documents.
An index batch is a last-write-wins map and a Bolt transaction is one step. The scratch fields
`PartExists` and `ExistingDoc` of an update entry are a separate value (`Finding`), since nothing reads
them after the decision. The goroutines of `Sync` are run one after another in an arbitrary order;
reads between any of their commits are covered by `ReadsStableThroughSync`. A panic and a decoding
error are outcomes, not preconditions. `Run` gives the codes as options: None is a result slot the
code never writes.

## What holds only under a condition

Each of these is a place where the code parts from the plain map; the condition is exact where the
table says so, and a lemma gives the failing case.

- A document command right after a pending DEL of its document is decided against an empty document
  with timestamp 0. The code then always differs from the plain one; the store differs exactly for a
  POST and for a PUT with timestamp 0 (`OneEntryExact`, `CodeAfterDelete`).
- A GET whose latest hit in the queue is a CREATE_PART falls through to disk and can return a document
  deleted with the previous partition of that name (`GetExact`, `DeleteThenCreateResurrects`).
- Entries of one batch do not see each other, and one entry that needs the disk makes the disk
  overwrite what the queue said of its neighbours' partitions (`TwoDeletesPanicSync`,
  `MixedSliceLosesPartition`). `UpdateExact` says what every batch does; the queue stays valid, the next
  Sync completes, and the answers are the plain log's or those of one-entry Updates, each exactly
  under a condition on the batch, the queue and the plain store before the call (`BatchValidExact`,
  `BatchSyncExact`, `BatchPlainExact`, `BatchSequenceExact`). The theorems about runs assume of every
  batch these exact conditions and nothing more. Conflict-free batches, in which no write answers a
  later lookup of the batch and no disk pass overwrites a neighbour's partition, meet them, the plain
  one when routed and away from pending DELs (`ConflictFreeMeetsAll`); a batch of one is conflict-free.
- A partition name is part of the document key with a colon after it, so partitions whose names
  collide share index entries: index agreement holds of exactly the sets of names without a collision
  (`CollideIffSharedKey`, `AgreementExact`).
- A crash inside a Sync can leave any subset of shards committed with the old replay index. The replay
  then restores the store exactly when, executed on the final store, the replayed log leaves the
  committed shards as they are (`MidSyncReplayExact`); `MidSyncReplayDiverges` is a log that does not.
- The patterns have no minus sign, so a DEL or PUT with a negative timestamp does not parse back
  (`TimestampExact`), and they allow leading zeros, which printing drops (`ParsedTextIsPrinted`).

The repository's tests in `main_test.go` and its README disagree with the code in two places, and the
model follows the code: the tests expect `DEL omanom 1234` and `PUT {...}` without a timestamp to
parse, and the README describes the document's unindexed fields under another name.

## Model

| member | source | states |
|---|---|---|
| Protocol.CreatePartText | statemachine/statemachine.go:332-338 | the text `CREATE_PART p`, for any word p with a shard and from any sound state, gets 409 and changes nothing when p is there, else 200 and adds the empty partition |
| Protocol.DeletePartText | statemachine/statemachine.go:340-346 | `DELETE_PART p` gets 200 and removes p with its documents when p is there, else 404 |
| Protocol.PostText | statemachine/statemachine.go:323-331 | `POST {...}` gets 404 without its partition, 409 when the document is there, else 200 and stores the text, provided no DEL of the document is pending |
| Protocol.PutText | statemachine/statemachine.go:312-322 | `PUT n {...}` gets 404 without its document, 409 when the document's Updated is not n, else 200 and stores the text, provided no DEL of it is pending |
| Protocol.DelText | statemachine/statemachine.go:312-322 | `DEL p i n` gets 404 without the document, 409 when its Updated is not n, else 200 and removes it, provided no DEL of it is pending |
| Protocol.GetText | statemachine/statemachine.go:101-134 | `GET p i` answers the stored text or not found, unless it resurrects the document |
| Runs.RunRefinement | statemachine/statemachine.go:232-421 | every run of batches that each meet the exact conditions for a valid queue and for plain answers, with Syncs anywhere, completes, answers every entry and ends with the store as the plain map executing the log one entry at a time |
| Runs.RunPlainExact | statemachine/statemachine.go:232-421 | and only such runs do: an admissible run without restarts gives the plain map's codes if and only if every batch meets its condition where it happens |
| Runs.AdmissibleExact | statemachine/statemachine.go:232-421 | a run of parsed batches completes with a valid queue after every event if and only if every batch meets the exact condition for it |
| Runs.ConflictFreeRunFits | statemachine/statemachine.go:258-354 | runs of conflict-free batches are admissible, and plain when routed and away from pending DELs |
| Runs.ScheduleUnobservable | statemachine/statemachine.go:232-421 | batch boundaries, Sync placement and shard order are unobservable: two runs of the same commands give the same codes, the same store and the same answer to every GET neither resurrects |
| Runs.RunKeepsInvariant | statemachine/statemachine.go:258-421 | every admissible run completes, with pending DELs, unrouted entries and restarts: no Sync meets a missing bucket, no Update is cut short, the queue stays valid and the stored index is the one in memory |
| Runs.StepKeepsInvariant | statemachine/statemachine.go:232-457 | one event always completes from a sound machine, and keeps it sound if and only if its batch meets the condition |
| Runs.OneEntryRuns | statemachine/statemachine.go:232-357 | a routed one-entry Update away from pending DELs is one step of the plain map |
| Runs.CompletedRunIsOrderly | statemachine/statemachine.go:232-457 | every run of parsed batches that completes, its queue valid or not, leaves records that decode to the documents their keys name, every partition in its shard and every queued entry with one |
| Runs.FlushKeepsStore | statemachine/statemachine.go:384-421 | a Sync of a valid queue completes, empties it, leaves the store unchanged and all of it on disk |
| Runs.RestartKeepsInvariant | statemachine/statemachine.go:441-457 | reopening drops the queue and finds the replay index that was in memory |
| Recovery.CrashRecovery | statemachine/statemachine.go:374-421 | after a crash anywhere outside a Sync, before the first Sync or after any, replaying every entry above the stored index in any batches and with any Syncs gives each its old code and the same store |
| Recovery.RepeatedCrashes | statemachine/statemachine.go:374-421 | however many replays are cut short by crashes outside a Sync, the one that gets through gives the entries it replays their codes in the log and ends with the log's store |
| Recovery.InterruptedReplay | statemachine/statemachine.go:374-421 | a crash in a replay leaves a state whose index again marks exactly what is still to be executed: the entries above it lead from its store to the log's end with the log's codes |
| MidSync.MidSyncReplayExact | statemachine/statemachine.go:384-421 | after a crash inside a Sync, with any subset of shards committed, the replay restores the store if and only if the replayed log, executed on the final store, leaves the committed shards as they are; an entry of an uncommitted shard gets its old code, one of a committed shard its code on the final store |
| MidSync.MixedReplay | statemachine/statemachine.go:258-354 | on the plain map: a log executed on a store that is half its start and half its end, shard by shard |
| MidSync.TornIsMixed | statemachine/statemachine.go:391-414 | what a restart finds after such a crash is the final store on the committed shards and the disk before the Sync on the others |
| MidSync.TornIsFound | statemachine/statemachine.go:441-457 | a restart finds the old replay index, the committed shards and an empty queue |
| MidSync.RefusedRepeats | statemachine/statemachine.go:310-354 | when the final store refuses every replayed entry of the committed shards, nothing is lost |
| Recovery.CrashPoint | statemachine/statemachine.go:441-457 | what Open finds after a crash is the state the last completed Sync left, or the starting one when there was none, whatever Updates followed |
| Recovery.ReplayedEntries | statemachine/statemachine.go:374-389 | the entries above the replay index are a rejected tail of the synced log and then everything later: rejected entries are replayed, accepted ones never are |
| Recovery.LogOrder | statemachine/statemachine.go:239-266 | over every completed run of increasing entries, admissible or not, each shard's slice of the queue is in log order |
| Recovery.FlushIndex | statemachine/statemachine.go:374-389 | a Sync sets the replay index to the maximum of its old value and the flushed indices, and what it stores reads back |
| Recovery.IndexNeverDecreases | statemachine/statemachine.go:176-210 | across any completed Updates, Syncs and restarts Open would read the index in memory, which never decreases |
| Recovery.AcceptedTracked | statemachine/statemachine.go:310-389 | every accepted entry is still queued or covered by the replay index, which is the starting one or the index of an entry |
| Overlay.GetExact | statemachine/statemachine.go:101-134 | for a routed partition GET answers what the store holds if and only if the latest hit is not a CREATE_PART over a bucket that still holds the document |
| Overlay.GetUnrouted | statemachine/statemachine.go:89-104 | a GET of a partition without a shard is always refused; which partitions those are is `RoutingExact` |
| Overlay.ReadsStableThroughSync | statemachine/statemachine.go:391-418 | a GET gives one answer before a Sync, after any subset of shards has committed and after the queue is cleared, if and only if it did not resurrect the document before |
| Overlay.GetAfterCommit | statemachine/statemachine.go:118-134 | once its shard is committed a GET answers what the store holds, with the queue still standing or cleared |
| Overlay.OneEntryExact | statemachine/statemachine.go:276-347 | a routed one-entry Update answers the plain code if and only if its document command does not follow a pending DEL, and changes the store as the plain map if and only if it is not such a POST or such a PUT with timestamp 0 |
| Overlay.CodeAfterDelete | statemachine/statemachine.go:290-331 | the codes after a pending DEL of the document: 409, or 200 for timestamp 0, where the plain map says 404, or 200 for a POST |
| Overlay.FindingTruth | statemachine/shard.go:79-124 | PartExists is membership of the partition in the store, and ExistingDoc the stored document, none, or the empty document of a pending DEL |
| Overlay.SubmitKeepsSound | statemachine/statemachine.go:310-347 | a one-entry Update keeps the queue valid in every case |
| Overlay.DiskLookup | statemachine/shard.go:49-77 | the bytes under a document's key are empty exactly when the disk's store lacks the document, else its text, which decodes |
| PendingQueue.QueueReveals | statemachine/statemachine.go:221-230 | the latest hit of a valid queue tells what the folded store holds of a partition and a document, a miss that it holds what the base held |
| PendingQueue.LatestHitInSlice | statemachine/statemachine.go:221-230 | a lookup in the whole queue is a lookup in the slice of its own shard |
| PendingQueue.InterleavingIrrelevant | statemachine/statemachine.go:259-368 | queues with the same slices fold to the same store, are valid together and answer every lookup alike |
| PendingQueue.SliceFold | statemachine/statemachine.go:359-368 | on the partitions of a shard the whole queue and the shard's slice do the same, and slices of a valid queue are valid |
| Deciding.UpdateOutcome | statemachine/statemachine.go:258-354 | an error-free Update gives codes that do not depend on the shard order, and its queue is, slice by slice, the old one followed by the entries coded 200 in log order |
| Deciding.FailedOutcome | statemachine/statemachine.go:259-308 | an Update cut short has given codes to exactly the entries of the shards walked before the failing one, and its queue has grown by exactly those coded 200 |
| Deciding.ShardFailsExactly | statemachine/shard.go:79-124 | a shard's disk pass fails if and only if it runs and the stored bytes of some document, which no queued document command names, do not decode |
| Deciding.ReplicaDeterminism | statemachine/statemachine.go:259-414 | for any two shard orders an Update fails in both or in neither, gives the same codes and slices, and the following Sync panics in both or leaves identical disks; nothing is assumed of the batch |
| Conservation.EntryConservation | statemachine/statemachine.go:239-356 | every entry is in the slice of its own shard only, a result is written exactly for routed writes, and the queue grows as a multiset by exactly the entries coded 200 |
| Snapshots.UpdateExact | statemachine/statemachine.go:258-354 | what an Update does of any batch on any sound state, in plain terms: no failure, every code the one a snapshot of the store before the batch gives, and the store after it the accepted entries applied in log order |
| Snapshots.BatchCodeExact | statemachine/statemachine.go:271-353 | every entry's code: the folded store's, the bare disk's when a neighbour's disk pass overwrites its partition, 409 or 200 behind a pending DEL, none without a shard |
| Snapshots.BatchValidExact | statemachine/statemachine.go:258-354 | the queue is valid after a batch if and only if no accepted part command is followed by an accepted command of its partition and every accepted command fits the store before the batch |
| Snapshots.BatchSyncExact | statemachine/statemachine.go:384-421 | the next Sync completes if and only if no accepted DELETE_PART is followed by an accepted command of its partition and every accepted command but CREATE_PART has its partition in the store before the batch |
| Snapshots.BatchPlainExact | statemachine/statemachine.go:258-354 | a batch is answered as the plain log if and only if every entry's snapshot code is its plain code in its place, and it leaves the plain log's store if and only if its accepted entries do |
| Snapshots.BatchSequenceExact | statemachine/statemachine.go:258-354 | a batch is answered as one-entry Updates in log order if and only if every entry is decided alike after the accepted entries before it; the per-shard queues are then theirs |
| Snapshots.ConflictFreeMeetsAll | statemachine/statemachine.go:258-354 | conflict-free batches meet these conditions |
| Batches.BatchEqualsSequence | statemachine/statemachine.go:258-354 | an error-free Update of a conflict-free batch gives the codes and per-shard queues of one-entry Updates in log order, for every state, sound or not; the exact condition on sound states is `BatchSequenceExact` |
| Batches.SingletonConflictFree | statemachine/statemachine.go:276-299 | a batch of one is conflict-free |
| Batches.BatchKeepsSound | statemachine/statemachine.go:258-354 | a conflict-free batch never fails to decode and keeps the queue valid; the exact condition is `BatchValidExact` |
| Batches.BatchPartExists | statemachine/shard.go:79-124 | in a conflict-free batch the computed PartExists is membership of the partition in the store |
| Batches.BatchRefines | statemachine/statemachine.go:258-354 | one Update of a conflict-free, routed batch away from pending DELs is the plain execution of its entries; the exact condition is `BatchPlainExact` |
| Batches.NeverFails | statemachine/shard.go:113-119 | documents the state machine stored always decode, so no Update of parsed entries is cut short |
| Conflicts.TwoDeletesPanicSync | statemachine/statemachine.go:276-347 | from every sound state that has the partition, a batch that deletes it twice gets 200 twice and no later Sync of that queue can complete |
| Conflicts.MixedSliceLosesPartition | statemachine/shard.go:87-97 | a POST into a partition created only in the queue gets 404 in a slice where another entry needs the disk, and 200 alone |
| Conflicts.DeleteThenCreateResurrects | statemachine/statemachine.go:118-134 | deleting and creating a stored partition before a Sync makes GET return its old documents although the store holds none |
| MidSync.RefusedThenAccepted | statemachine/statemachine.go:314-322 | a PUT with the wrong timestamp is refused with 409 and changes nothing, and the PUT that then sets that timestamp is accepted |
| MidSync.MidSyncReplayDiverges | statemachine/statemachine.go:405-420 | replayed after a crash with their shard committed and the index not yet written, the refused PUT is accepted, and the store is lost unless the two leave the same document or the refused one sets back the timestamp the other waits for |
| MidSync.PairPlays | statemachine/statemachine.go:232-357 | two such PUTs can always be given one at a time from a synced state, on the committed shards too |
| DiskView.SyncPreservesStore | statemachine/statemachine.go:384-421 | committing every shard its own slice is the whole queue applied in order to the store on disk |
| DiskView.PartialCommit | statemachine/statemachine.go:391-414 | with any subset of shards committed, their partitions read as the folded store and the others as before |
| DiskView.CommitRefines | statemachine/shard.go:126-184 | committing a valid slice never meets a missing bucket and does to the buckets what the plain commands do to the store |
| DiskView.CommitExact | statemachine/shard.go:126-184 | any slice, valid or not, commits if and only if every command but CREATE_PART finds its partition, and then does what the plain commands do |
| DiskView.SyncCompletesExactly | statemachine/statemachine.go:384-418 | a Sync of any queue completes if and only if every queued command but CREATE_PART finds its partition in the whole queue's order |
| IndexAgreement.AgreementExact | statemachine/shard.go:126-184 | every list over a set of names that can be committed to a shard in agreement, repeated CREATE_PARTs included, keeps agreement if and only if no two of the names can share a key, given a decoder that can produce their documents |
| IndexAgreement.CommitAgrees | statemachine/shard.go:126-184 | committing any slice that can be committed, over partitions that cannot share a key, keeps the index holding exactly the stored keys with the decoding of their bytes; the slice need not be valid |
| IndexAgreement.SweepAgrees | statemachine/shard.go:148-157 | the cursor sweep of a DELETE_PART removes from the index exactly the keys the deleted bucket held |
| IndexAgreement.CollidingPartsDisagree | command/command.go:223-225 | for any two partitions that share a key, every list that creates both, posts the shared key in each and deletes one document is valid and leaves a stored document unindexed |
| IndexAgreement.CompletedRunKeepsIndex | statemachine/statemachine.go:384-421 | over every run that completes, whatever its batches, whose partition names cannot share a key every shard's index agrees with its storage between any two events |
| IndexAgreement.RunKeepsIndex | statemachine/statemachine.go:384-421 | every admissible run over such names completes and keeps that agreement |
| IndexAgreement.ColonFreeIsSeparate | command/command.go:223-225 | colon-free partition names cannot share a key |
| IndexAgreement.SearchExact | statemachine/shard.go:201-227 | of any hits drawn from an agreeing index Search returns exactly those of the requested partition, in order; none is dropped and none fails to decode |
| IndexAgreement.ResolveAny | statemachine/shard.go:201-227 | whatever the index holds, Search fails if and only if the stored bytes of a hit in the bucket do not decode, and else returns exactly the hits in the bucket, in order, with their scores and stored documents |
| Commands.CollideIffSharedKey | command/command.go:223-225 | two partitions share a document key if and only if one name closed by a colon is a prefix of the other's |
| Commands.FullIdUniqueInPart | command/command.go:223-225 | inside one partition the key determines the id |
| Locking.LockChain | statemachine/statemachine.go:313-322 | an accepted PUT or DEL carries the Updated value of the accepted write of the document right before it, which is a POST or a PUT |
| Locking.LockFirst | statemachine/statemachine.go:313-322 | with no accepted write before it, it carries the Updated value the log started from |
| Locking.VersionsIncrease | statemachine/statemachine.go:313-331 | when every accepted PUT advances its document, versions strictly increase and timestamps are used once within a lifetime |
| Locking.RunLocks | statemachine/statemachine.go:313-331 | both properties of the codes the state machine gives over a whole run |
| ReplayIndex.PrintedIndexParses | statemachine/statemachine.go:192-207 | every uint64, and no larger number, survives being printed in decimal and parsed |
| ReplayIndex.WrittenIndexIsRead | statemachine/statemachine.go:176-210 | the index Sync writes is the one the next Open reads |
| ReplayIndex.HighestIndexIsMaximum | statemachine/statemachine.go:374-382 | the highest index is the maximum of the last one and the queued ones |
| CommandParser.ParseExact | command/command.go:54-200 | a text parses to a command if and only if it is that command in one of the nine documented forms, each written out with its prefix, spaces, character classes, number range and every field; nothing of the parser appears in the statement |
| CommandParser.AtMostOneFormat | command/command.go:50-52 | no text tests true for two formats |
| CommandParser.TableOrderIrrelevant | command/command.go:227-234 | every table of the same formats, in any order, parses every text alike |
| CommandParser.RoundTrip | command/command.go:71-200 | printing a command in the documented form, written out for all nine, and parsing it recovers its fields |
| CommandParser.ParsedTextIsPrinted | command/command.go:71-200 | parsing a command and printing it gives the text back, for DEL and PUT if and only if the timestamp in the text has no leading zeros |
| CommandParser.TimestampExact | command/command.go:85-121 | a printed DEL or PUT parses if and only if its timestamp is a non-negative int64 |
| CommandParser.ParsedIsWellFormed | command/command.go:102-179 | a parsed write has its part flag, its decoded document with matching part and id, or the empty document of a DEL |
| StateMachine.ByStateMachine.Update | statemachine/statemachine.go:232-357 | panics and changes nothing when an entry does not parse; else ends with the queue of the walk over the shards in the order it took, every slot holding its entry's code or what it held, commands and indices untouched; complete, it is the Update step of the run model |
| StateMachine.ByStateMachine.WalkShards | statemachine/statemachine.go:258-354 | the walk visits shards once each, all of them unless a document does not decode |
| StateMachine.ByStateMachine.UpdateShard | statemachine/statemachine.go:259-354 | one shard's turn: the pass over its slice |
| StateMachine.ByStateMachine.LookInPending | statemachine/statemachine.go:274-299 | fills the scratch fields from the queue and counts whether the disk is needed |
| StateMachine.ByStateMachine.DecideOne | statemachine/statemachine.go:311-353 | writes the code into one result slot, leaving its command and index and the other slots, and queues the entry exactly when it is coded 200 |
| StateMachine.ByStateMachine.DecideAll | statemachine/statemachine.go:310-353 | writes the slots of the slice's entries and no other, and appends the accepted ones in order |
| StateMachine.ByStateMachine.Sync | statemachine/statemachine.go:384-421 | completes exactly when every slice can be committed, and then is the Sync step of the run model; otherwise every shard is untouched or fully committed |
| StateMachine.ByStateMachine.CommitAll | statemachine/statemachine.go:391-416 | whatever the order of the commits, completion leaves every shard with its slice committed |
| StateMachine.ByStateMachine.CommitShard | statemachine/statemachine.go:395-413 | commits one shard's slice, or leaves the shard alone when that panics or there is nothing to commit |
| StateMachine.ByStateMachine.FindCommandInPending | statemachine/statemachine.go:221-230 | the backward scan returns the latest hit |
| StateMachine.ByStateMachine.LookupGetRequest | statemachine/statemachine.go:118-134 | answers GET from the queue and then the disk |
| StateMachine.ByStateMachine.LookupGetRequestInState | statemachine/statemachine.go:101-116 | answers GET from the partition's shard, or that there is none; which shard that is is `RoutingExact` |
| StateMachine.ByStateMachine.LookupSearchRequest | statemachine/statemachine.go:136-153 | resolves a given hit list in the partition's shard, or fails when there is none |
| StateMachine.ByStateMachine.GetPendingUpdatesForShard | statemachine/statemachine.go:359-368 | returns the shard's slice of the queue |
| StateMachine.ByStateMachine.FindHighestIndexInPending | statemachine/statemachine.go:374-382 | returns the highest index |
| StateMachine.ByStateMachine.UpdateLastUpdateIndex | statemachine/statemachine.go:203-210 | writes the decimal index into the metadata bucket, and nothing when the bucket is missing |
| StateMachine.ByStateMachine.GetLastUpdateIndex | statemachine/statemachine.go:176-201 | reads the index, 0 when nothing is stored, an error when the text is not a uint64 |
| StateMachine.ByStateMachine.Open | statemachine/statemachine.go:441-457 | opens one shard for every character of the alphabet on its files and reads the replay index; on no files it is `FirstOpen` |
| StateMachine.Restart | statemachine/statemachine.go:441-457 | a new state machine opened on another's files is the restart step of the run model |
| StateMachine.BatchIsWellFormed | statemachine/statemachine.go:237-256 | the entries Update builds carry the command each text parses to, the log entry's own index, and the shard of the character its partition starts with |
| Lifecycle.FirstOpen | statemachine/statemachine.go:441-457 | opened on no files a new state machine has 36 empty shards, an empty queue and replay index 0: it is the first machine of the runs |
| Lifecycle.RoutingExact | statemachine/statemachine.go:27-99 | after any completed run from the first opening a GET is refused for want of a shard if and only if the partition does not start with a small letter or a digit, and a stored partition is in the shard of the character it starts with |
| Lifecycle.ResultsExact | statemachine/statemachine.go:237-354 | and a write is left without a result if and only if its partition does not start so |
| Lifecycle.UpdateThenSync | statemachine/statemachine.go:232-421 | after an Update and a Sync the stored index, the one the next opening reads, is the highest of the old one, those of the entries queued before and those of the log entries coded 200 |
| Lifecycle.UpdatedHighest | statemachine/statemachine.go:248-382 | the highest index in the queue after an Update, in terms of the log entries' own indices |
| FirstStart.FirstMachineIsSound | statemachine/statemachine.go:50-59 | the empty state machine satisfies the invariant of all runs and stands for the empty store |
| FirstStart.EveryRunOfSinglesCompletes | statemachine/statemachine.go:232-421 | from the empty state machine or any sound one, any run of one-entry Updates of parsed commands, with Syncs and restarts anywhere, completes and keeps the invariant; nothing is assumed of the log |
| FirstStart.SettledRunsArePlain | statemachine/statemachine.go:232-421 | with conditions on the log alone: any run of routed one-entry Updates from a synced state in which no document command follows a DEL of its document without a Sync or a DELETE_PART of its partition in between answers and ends as the plain map does |
| FirstStart.PendingDeleteLingers | statemachine/statemachine.go:221-299 | a lookup that ends at a pending DEL has that DEL in the log since the last Sync with no DELETE_PART of its partition after it |
| FirstStart.RunsWithoutDeleteArePlain | statemachine/statemachine.go:232-421 | in particular, from the empty state machine, any such run without DEL, from the empty map |
| ShardStore.Shard.ApplyUpdates | statemachine/shard.go:126-184 | commits a slice to buckets and index, or changes nothing when a bucket is missing; what that does to both is `CommitExact` and `CommitAgrees` |
| ShardStore.Shard.SweepBucket | statemachine/shard.go:151-155 | the cursor walk, in any order, queues the deletion of every key of the bucket and nothing else |
| ShardStore.Shard.FindExistingDocumentsForUpdates | statemachine/shard.go:79-124 | fills every entry's scratch fields from the disk, skipping those that already have a document, and fails exactly when some stored document does not decode |
| ShardStore.Shard.GetDocumentString | statemachine/shard.go:49-77 | finds a document exactly when its bucket holds non-empty bytes for the key |
| ShardStore.Shard.Search | statemachine/shard.go:186-234 | resolves a hit list in a bucket |

## Left out

- Recovery.CrashRecovery: a crash inside a Sync is not covered here; there the property is false, and `MidSyncReplayExact` says exactly when it holds.
- StateMachine.ByStateMachine.LookupSearchRequest: the query is run by Bleve; the hit list it returns is a parameter.
- StateMachine.ByStateMachine.Open: file-system and Bolt errors are not modelled; the only failure is a stored index that does not parse.
- ShardStore.Shard.ApplyUpdates: Bolt's limits on key and value sizes, and write errors of Bolt and Bleve, are not modelled.
- ShardStore.Shard.Search: building the query, running it, scoring and result limits are Bleve's; the hit list is a parameter.
- CommandParser.ParseExact: strings are sequences of characters; text that is not valid UTF-8 is not modelled.
- Raft, gRPC, the client and server programs and their configuration: plumbing over libraries that are not part of this model. Log entries are given.
- Snapshots and the archive code: file-system walking.
- Overlap of Update and Sync, and races on the queue: a scan of the queue is one step.
- Logging, and the dispatch of `Lookup` on the kind of command.
