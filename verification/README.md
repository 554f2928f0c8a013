# Valkey Admin: verified models of its algorithms and protocols

This project models, in Dafny, the parts of Valkey Admin whose correctness does not show in any
one function: paged reading of sorted sets, the concurrent cluster scan, the rotating metrics log,
the retry runner and the sessions that supersede each other on top of it, the per-connection
mutex and the owner registry, the bookkeeping of collector processes, the streaming analytics,
and the codecs and trees of the shared library. `dafny verify dfyconfig.toml` checks everything.

How the source's forms are kept:

- Objects and closures that change their state are classes, and loops are loops. Each method is
  proved against a specification function or a property of the input; the properties the source
  promises are lemmas about that specification.
- Concurrent code is a state machine. Code between two awaits is one step, events may come in any
  order the event loop allows and in any number, and a theorem is about every reachable state. Where
  the machines are functions, the code's closures and maps are fields of the state.
- The server, the file system, the clock and the network are parameters, replies or arbitrary
  choices. Numbers are integers and exact reals; texts are sequences of characters.

| module | source |
|---|---|
| `SortedSets`, `ZSetReaders` | sorted-set reader of the key browser |
| `ClusterScans` | concurrent SCAN of a cluster |
| `LogFiles`, `LogChunks`, `NdjsonLogs`, `NdjsonReaders`, `NdjsonRuns` | rotating log: files, layout, writer, reader and capacity, whole lives |
| `RetryRunner`, `RetryAnswers`, `ConfigSessions` | retry runner, what decides its runs; config sessions over it |
| `Owners` | connect mutex and owner registry |
| `Collectors` | collector processes of one owner |
| `TopN`, `BigKeys` | largest keys, per node and merged |
| `Downsample`, `CpuUsage` | min/max downsampling; CPU usage fold |
| `KeyTrees`, `JsonDiff`, `OwnerDirs`, `AuthMessages`, `CommandArgs` | key tree, JSON diff, owner directories, signed messages, command tokenizer |
| `Wrappers`, `Sequences`, `Strings`, `Arithmetic` | shared helpers |

## Where the code does not do what it says

In each case the model follows the code, and a lemma or a contract says exactly when the promise
holds. Where a lemma shows an input at which it fails, it is named too.

- Reading a sorted set walks a score with more members than a page by `BYLEX`, which the server
  specifies only for sets whose members share one score. `ReadSortedSet` gives the set whenever no
  score outgrows a page, and whenever set order is name order. If `BYLEX` answers with nothing, the
  result is exactly the members less than a page deep in their score, and so the set if and only if no
  score outgrows a page.
- The updates of a run and its result can disagree after an abort: a node whose attempt succeeds
  after it has a successful result that was never emitted (`LateSuccessHappens`). Aborting can lead
  to `fulfilled` without the updates to match if and only if, at that moment, an attempt is under way
  and every other attempted node is done and succeeded (`AbortMayOverstateExactly`); and when the
  outcome is `fulfilled` after an abort the updates match if and only if every node was done at the
  abort (`AbortDecides`). Config sessions discard the result of an aborted run.
- The preconfigured node is started without looking whether it has a collector. If a user connects to
  it first it is spawned twice and one process is never killed (`PreconfiguredStartsTwice`). Spawns
  and kills balance if and only if it was never started while its entry had a process
  (`RunIsBalancedExactly`).
- `computeCapacity` stays within the retention if and only if the retention is at least 1 MB
  (`CapacityFillsRetention`).
- One reconcile round converges if and only if none of the wanted collectors is stale
  (`RoundConverges`); two rounds do when nothing goes stale between them (`TwoRoundsConverge`).
- The JSON diff does not see nested containers without a scalar. It is empty if and only if the
  documents are equal without them (`DiffEmptyExactly`, `EmptyContainerIsMissed`).
- Key names that differ only in the delimiter are one node of the key tree
  (`SegmentsCollideExactly`, `DelimitersCollapse`).

## Model

| member | source | states |
|---|---|---|
| ZSetReaders.ReadSortedSet | apps/server/src/keys-browser.ts:152-238 | the read terminates and gives every member once, with its score, in set order, when no score outgrows a page or when set order is name order; with a `BYLEX` that answers nothing it gives exactly the members less than a page deep in their score, in set order without repeats |
| ZSetReaders.ZSetReader.ReadAll | apps/server/src/keys-browser.ts:208-231 | the whole paging loop; when no score outgrows a page `BYLEX` is never issued |
| ZSetReaders.ZSetReader.Advance | apps/server/src/keys-browser.ts:212-231 | one round goes from a page that starts a score to a later one or keeps something new; what was read stays a prefix of the set, or with a silent `BYLEX` the prefix without what lies a page deep |
| ZSetReaders.ZSetReader.DrainTiedScore | apps/server/src/keys-browser.ts:189-206 | draining a score reads exactly to its end, a page that crosses into a higher score included |
| ZSetReaders.ZSetReader.KeepTied | apps/server/src/keys-browser.ts:198-203 | what is kept of one name-ordered page |
| ZSetReaders.ZSetReader.ResumePastScore | apps/server/src/keys-browser.ts:220-227 | after a tie, whether it could be drained or not, the read resumes at the first member of the next score and adds its page |
| ZSetReaders.SliceExtendsPrefix | apps/server/src/keys-browser.ts:172-182 | adding a page that overlaps what was read extends the prefix without repeating a member |
| ZSetReaders.RepeatedPageIsOneScore | apps/server/src/keys-browser.ts:219-222 | the page from the last score holds nothing new exactly when the whole full page before it is of one score, as the code's comment claims |
| ZSetReaders.PageWalksOn | apps/server/src/keys-browser.ts:212-219 | a score page adds exactly its members not read yet, none of which lies a page deep in its score |
| ZSetReaders.ShallowMembers | apps/server/src/keys-browser.ts:184-187 | what score pages alone can read is exactly the members less than a page deep, each once, in set order |
| SortedSets.InclusivePage | apps/server/src/keys-browser.ts:215-216 | the page from the last score seen starts at that score's first member |
| SortedSets.LexPage | apps/server/src/keys-browser.ts:194-196 | when set order is name order, a page past a name is the members after it |
| ClusterScans.ScanCluster | apps/server/src/keys-browser.ts:484-542 | under every interleaving the replies handled are those a node asked for and the result is the first `limit` distinct keys they hold; the scan is finished exactly when no node asks any more, and then it is full, or every cursor is at 0 and no returned key is missing |
| ClusterScans.ClusterScan.OnReply | apps/server/src/keys-browser.ts:525-537 | what one reply changes and what it keeps |
| ClusterScans.ClusterScan.FinishedScanIsFullOrComplete | apps/server/src/keys-browser.ts:525-541 | an ended scan is full or complete |
| ClusterScans.CutDistinctSnoc | apps/server/src/keys-browser.ts:513-515 | adding a key to a set only below the limit keeps exactly the first distinct keys |
| ClusterScans.AsksOnlyBelowLimit | apps/server/src/keys-browser.ts:525-525 | a node asks again only while its walk is unfinished, and not after a reply that finds the set full |
| NdjsonRuns.WriteAndRead | apps/metrics/src/effects/ndjson-streamer.js:49-102 | over all appends and restarts a read gives exactly the rows of the files created on the days of its range; while row days never fall the files hold the end of all rows ever appended, all of them until rotation deleted files and as many files as the log may have afterwards, so the read is a gapless stretch in append order, and a suffix when it covers the newest file |
| NdjsonRuns.RunProcess | apps/metrics/src/effects/ndjson-writer.js:34-117 | one process appends its batches and leaves a directory the next one can go on with, with every row kept or a full log |
| NdjsonLogs.NdjsonWriter.AppendRows | apps/metrics/src/effects/ndjson-writer.js:90-112 | the rows are laid out in chunks that fit their file or are one row, each begun because its first row did not fit, and on the same day in the next file, which is new; while days do not fall each file took at most one row or is within the limit, and all rows are kept until a rotation of a full log deletes the oldest file, after which the log is full again; files keep their size bound, and their number its bound once the log rotated on a day |
| LogChunks.LaidOutFillsFiles | apps/metrics/src/effects/ndjson-writer.js:94-113 | an append that is laid out so leaves in each file at most one row more, or a file within the limit |
| LogChunks.PlacedFirst | apps/metrics/src/effects/ndjson-writer.js:107-113 | writing a chunk, rotating and writing the rest puts each chunk's rows at the end of its own file |
| NdjsonLogs.NdjsonWriter.WriteChunk | apps/metrics/src/effects/ndjson-writer.js:93-107 | the first chunk goes to the end of the newest file of its day, or of the next when that is full, and ends only where the next row would go over the limit |
| NdjsonLogs.NdjsonWriter.TakeChunk | apps/metrics/src/effects/ndjson-writer.js:97-105 | the chunk is the longest run of rows within the budget, and at least one row |
| NdjsonLogs.NdjsonWriter.FileWithSizeFor | apps/metrics/src/effects/ndjson-writer.js:52-67 | the writer goes on with its number or the day's highest, and moves to the next number exactly when that file is full; the chosen file tops its day and leaves room for itself after a rotation |
| NdjsonLogs.NdjsonWriter.EvictOldest | apps/metrics/src/effects/ndjson-writer.js:69-80 | exactly as many files as needed to make room for one are deleted, each older than every file that is left |
| NdjsonLogs.NdjsonWriter.AdvanceSeq | apps/metrics/src/effects/ndjson-writer.js:82-88 | the next number, with room for its file |
| NdjsonLogs.NdjsonWriter.DiscoverMaxSeq | apps/metrics/src/effects/ndjson-writer.js:6-17 | the highest number of the day's files, or 0 |
| NdjsonLogs.LogDir.ListFiles | apps/metrics/src/effects/ndjson-writer.js:19-32 | the listing by birth time and number is the order of creation |
| LogFiles.ListingIsCreationOrder | apps/metrics/src/effects/ndjson-streamer.js:25-28 | reader and writer sort alike: there is one listing, the order of creation, also when files with rising numbers are born in the same millisecond |
| LogFiles.AppendKeepsLedger | apps/metrics/src/effects/ndjson-writer.js:107-107 | an append to the newest file keeps the files' content a suffix of all rows appended |
| LogFiles.DeleteKeepsLedger | apps/metrics/src/effects/ndjson-writer.js:69-80 | evicting the oldest file keeps the content a suffix of all rows appended |
| LogFiles.ChunkKeepsBudget | apps/metrics/src/effects/ndjson-writer.js:95-105 | a file that takes a chunk stays below its limit without its last line |
| NdjsonLogs.WriteKeepsRoom | apps/metrics/src/effects/ndjson-writer.js:82-107 | the file limit after a rotation holds through the next write |
| NdjsonReaders.StreamNdjson | apps/metrics/src/effects/ndjson-streamer.js:60-102 | a read gives the filtered, limited rows of exactly the files created on the days of the range, which are a stretch of the order of creation, to the newest when the days cover it |
| NdjsonReaders.DaysInRange | apps/metrics/src/effects/ndjson-streamer.js:33-38 | the dates cover exactly the days of the range, ends included |
| LogFiles.DaysAreWhole | apps/metrics/src/utils/helpers.js:4-4 | a timestamp's day is the UTC day it falls in |
| NdjsonReaders.DaysAreAStretch | apps/metrics/src/effects/ndjson-streamer.js:14-28 | the files created on a range of days follow each other in creation order |
| NdjsonReaders.ReadLines | apps/metrics/src/effects/ndjson-streamer.js:73-89 | one file's rows after those of earlier files, filtered and limited |
| NdjsonReaders.KeptArePassing | apps/metrics/src/effects/ndjson-streamer.js:73-84 | a read keeps the first `limit` of the rows that pass the filter |
| NdjsonReaders.KeptIsFull | apps/metrics/src/effects/ndjson-streamer.js:74-76 | stopping at the limit loses nothing a longer read would keep |
| NdjsonReaders.CapacityFillsRetention | apps/metrics/src/init-collectors.js:24-33 | for every retention, whole or not, the files fill it to within one file, and stay within it if and only if it is at least 1 MB |
| NdjsonReaders.FileSizeFollowsRetention | apps/metrics/src/init-collectors.js:24-33 | a file may take a quarter of the retention, but 256 KB at least and 10 MB at most |
| NdjsonReaders.DiskBudget | apps/metrics/src/init-collectors.js:24-33 | from a rotation until the day changes the log takes less than the retention plus one longest line per file |
| RetryRunner.EveryRunEmitsLegalWords | apps/server/src/actions/retry-runner.ts:115-155 | for every interleaving and abort point a target's updates are a prefix of attempts, announced retries with their backoff, then success or the final failure; complete without an abort |
| RetryAnswers.SuccessIsAnAnswer | apps/server/src/actions/node-fanout.ts:63-84 | in every run a node is done with a success exactly when its operation answered one to an attempt under way, never by a time-out, and without an abort its last update is that this attempt succeeded |
| RetryAnswers.FailureIsAnnounced | apps/server/src/actions/retry-runner.ts:125-153 | a time-out or failed answer while its attempt is under way is announced with the retry, or with the final failure after the last attempt, unless the run was aborted |
| RetryAnswers.ResultIsLastAnswer | apps/server/src/actions/retry-runner.ts:116-131 | a node's result is what settled its last attempt, the time-out failure included, or the initial failure when none was made |
| RetryAnswers.FailedWordTriesAll | apps/server/src/actions/retry-runner.ts:42-50 | a word that ends in failure has one attempt more than there are retries, 6 by default, each but the last followed by the wait the caller's list or the backoff gives |
| RetryAnswers.ReportsAreAnswers | apps/server/src/actions/retry-runner.ts:157-158 | a run reports of each node the answer that settled its last attempt |
| RetryRunner.StepKeepsInv | apps/server/src/actions/retry-runner.ts:115-155 | every step keeps what each target emitted in line with where its code stands |
| RetryRunner.StartSatisfiesInv | apps/server/src/actions/retry-runner.ts:98-122 | so does the code up to the first wait |
| RetryRunner.NothingIsEmittedAfterAbort | apps/server/src/actions/retry-runner.ts:93-96 | nothing is emitted after an abort |
| RetryRunner.SkippedTargetIsSilent | apps/server/src/actions/retry-runner.ts:100-113 | a target without a URI emits its one update at the start and nothing more |
| RetryRunner.StepsAreBounded | apps/server/src/actions/retry-runner.ts:121-145 | every step that does something brings the run closer to its end |
| RetryRunner.SomethingIsPending | apps/server/src/actions/retry-runner.ts:157-158 | a run that has not resolved waits for something that moves it on |
| RetryRunner.SplitTargets | apps/server/src/actions/retry-runner.ts:98-113 | the loop puts each target in the list its URI calls for, in order |
| RetryRunner.SplitIsPartition | apps/server/src/actions/retry-runner.ts:98-113 | the two lists hold every target once |
| RetryRunner.ReportsFollowTargets | apps/server/src/actions/retry-runner.ts:157-158 | a resolved run reports the attempted targets in target order |
| RetryRunner.OutcomeMatchesWords | apps/server/src/actions/node-fanout.ts:91-94 | the outcome is that nothing was attempted exactly when no target has a URI; without an abort before the runner resolved it is failed exactly when some word ends in the final failure, and fulfilled exactly when something was attempted and every word ends in success |
| RetryRunner.AbortDecides | apps/server/src/actions/retry-runner.ts:121-131 | when a run aborted in any state comes out fulfilled, every word ends in success exactly when every node was done at the abort |
| RetryRunner.AbortMayOverstateExactly | apps/server/src/actions/retry-runner.ts:125-131 | an abort can lead to a fulfilled outcome that the words do not bear out exactly when, at that moment, an attempt is under way and all other attempted nodes are done and succeeded |
| RetryRunner.LateSuccessHappens | apps/server/src/actions/retry-runner.ts:125-126 | a run with one node whose success comes after the abort and is never emitted |
| RetryRunner.ComputeRetryDelay | common/src/constants.ts:164-172 | the backoff is Fibonacci seconds, at most 30 |
| RetryRunner.FirstWaits | common/src/constants.ts:164-172 | the first retries wait 1, 2, 3, 5, 8, 13 and 21 seconds, the eighth 30 |
| RetryRunner.BackoffNeverShrinks | common/src/constants.ts:164-172 | later retries never wait less, between 1 and 30 seconds, the full 30 from the eighth on |
| ConfigSessions.OneActiveSessionPerKey | apps/server/src/actions/config.ts:122-125 | in every run each key has at most one session neither finished nor aborted, and it is the registered one |
| ConfigSessions.RepliesAreExact | apps/server/src/actions/config.ts:134-151 | in every run a session that was ever aborted never replies and every other one replies exactly once, when it finishes; the reply says nothing attempted exactly when no node has a URI, failed exactly when some node's updates end in failure, and fulfilled exactly when all of them end in success |
| ConfigSessions.AbortedNeverReplies | apps/server/src/actions/config.ts:140-144 | whatever comes after, a session once aborted emits nothing more and never replies |
| ConfigSessions.WhatAborts | apps/server/src/actions/config.ts:82-125 | a session is aborted exactly by a new session for its key or the close of its socket while it is the registered one |
| ConfigSessions.WhatStarts | apps/server/src/actions/config.ts:117-138 | a new session is registered under its key and runs the retry runner on its own targets with its caller's overrides; no other session is more than aborted |
| ConfigSessions.SessionsAreRuns | apps/server/src/actions/config.ts:134-139 | whatever sessions do to each other, each one's runner goes through a run of the retry runner |
| ConfigSessions.SessionMovesOn | apps/server/src/actions/config.ts:134-151 | a session that has not finished always waits for something of its own that moves it on |
| ConfigSessions.StepKeepsInv | apps/server/src/actions/config.ts:85-151 | starts, node steps, completions and socket closes keep the session map right |
| ConfigSessions.KeysSeparateOwners | apps/server/src/actions/config.ts:111-113 | two sessions share a key exactly when owner and target agree, for target ids without a bar |
| ConfigSessions.KeyIsAmbiguousExactly | apps/server/src/actions/config.ts:111-113 | as a text a key has a second reading exactly when its owner or its target holds a bar |
| Owners.BodiesRunOneByOne | apps/server/src/connection.ts:217-236 | for an owner and connection id at most one connect body runs at a time, and one begins only after every earlier arrival is over, failed or not |
| Owners.EntryGoneOnceDrained | apps/server/src/connection.ts:229-235 | the in-flight entry names the latest connect and is gone exactly when that one cleaned up |
| Owners.QueueMoves | apps/server/src/connection.ts:224-228 | no connect waits forever behind others that are over |
| Owners.StatesInUseAreRegistered | apps/server/src/owner.ts:153-193 | an owner state with a client or a connect in flight is the one its key resolves to, and removing it does nothing |
| Owners.RemovalIsExact | apps/server/src/owner.ts:184-193 | in every run an offer to remove a state unregisters it exactly when it is not the preconfigured one, is registered, and has no client, collector, topology, connect in flight or cluster client on the way; a teardown takes its client out first |
| Owners.RemovedIsGone | apps/server/src/owner.ts:153-173 | a removed state is no longer what its key resolves to, and the next connect gets a new one |
| Owners.OnlyEmptyStatesGo | apps/server/src/owner.ts:184-193 | nothing else unregisters a state, so one that holds anything stays registered |
| Owners.WhatConnectsDo | apps/server/src/actions/connection.ts:57-73 | a connect joins the state it was told to, else the one its key resolves to, else a new registered one, and queues there behind the connect in flight |
| Owners.WhatBodiesDo | apps/server/src/connection.ts:226-228 | a connect body changes the client of its own id in its own owner's state only |
| Owners.RunningBodyHasItsOwner | apps/server/src/actions/connection.ts:117-129 | a connect that is not over finds its owner state registered and in use |
| Owners.StepKeepsInv | apps/server/src/owner.ts:160-193 | every connect, body step, cleanup and removal keeps queue and registry right |
| Collectors.RunIsBalancedExactly | apps/server/src/metrics-orchestrator.ts:566-771 | under every interleaving of blocks keys are kept for exactly the nodes with an entry, and spawns minus kills of every node is 1 when its entry has a process and 0 otherwise exactly when the preconfigured node was never started over a running one |
| Collectors.RunAccounts | apps/server/src/metrics-orchestrator.ts:566-771 | every process spawned was killed, or is the one its node's entry names, or was lost to a second start of the preconfigured node |
| Collectors.EveryEntryRuns | apps/server/src/metrics-orchestrator.ts:713-720 | when every spawn yields a process every entry has one |
| Collectors.EntriesShowLastSign | apps/server/src/metrics-orchestrator.ts:664-720 | every entry shows when its collector was last started or heard of, and its key is the one it was started with |
| Collectors.PreconfiguredStartsTwice | apps/server/src/metrics-orchestrator.ts:768-771 | a connect before the preconfigured start leaves two processes under one entry |
| Collectors.OwnerCollectors.StartMetricsServer | apps/server/src/metrics-orchestrator.ts:647-721 | a node gets a process, a key and an entry together, whatever entry it had |
| Collectors.OwnerCollectors.StartMetricsServers | apps/server/src/metrics-orchestrator.ts:566-575 | only nodes without an entry are started |
| Collectors.OwnerCollectors.StopMetricsServer | apps/server/src/metrics-orchestrator.ts:723-741 | an entry with a process is killed and forgotten with its key; one without stays |
| Collectors.OwnerCollectors.ReconcileCluster | apps/server/src/metrics-orchestrator.ts:743-766 | a round that nothing interrupts starts what a cluster lacks and stops what it does not need, and does nothing exactly when there is nothing to do |
| Collectors.OwnerCollectors.PruneCollectors | apps/server/src/metrics-orchestrator.ts:610-617 | exactly the nodes stay that have no process, a client on them, or a cluster that lists them |
| Collectors.OwnerCollectors.StopAll | apps/server/src/metrics-orchestrator.ts:588-603 | shutdown kills every process and forgets everything |
| Collectors.RoundConverges | apps/server/src/metrics-orchestrator.ts:526-554 | a round leaves the cluster's nodes and the claimed running nodes, exactly when none of them was stale |
| Collectors.RoundKeeps | apps/server/src/metrics-orchestrator.ts:526-554 | node by node: a round starts what the cluster lacks, and an entry stays exactly when it has no process, or was seen within the limit and is of the cluster or a client's |
| Collectors.OneRoundConverges | apps/server/src/metrics-orchestrator.ts:743-766 | with nothing stale one round converges, and a round at any later time changes nothing as long as nothing is stale by then |
| Collectors.TwoRoundsConverge | apps/server/src/metrics-orchestrator.ts:743-766 | whatever was stale, two rounds converge when nothing goes stale between them |
| Collectors.NothingToDoMeansConverged | apps/server/src/metrics-orchestrator.ts:755-759 | the early return is taken exactly when the map has converged and holds nothing stale |
| Collectors.RoundLeavesNothingStale | apps/server/src/metrics-orchestrator.ts:540-551 | after a round no collector is stale |
| BigKeys.ScanBigKeys | apps/metrics/src/analyzers/scan-big-keys.js:10-45 | the scan stops at the first batch that ends the cursor or reaches the scan limit, and returns scanned keys, none more often than it was scanned, whose sizes are the N largest of all scanned, largest first |
| BigKeys.RequestBigKeys | apps/server/src/actions/bigkeys.ts:112-145 | over all nodes that answer, the merged keys are scanned keys under their node's id, none more often than it was scanned, and their sizes are the N largest of everything scanned |
| BigKeys.HeapStep | apps/metrics/src/analyzers/scan-big-keys.js:32-37 | a heap of the N largest so far stays that when a key is offered |
| BigKeys.SortWithoutSmallest | apps/metrics/src/analyzers/scan-big-keys.js:34-36 | popping the minimum drops the last of the sorted sizes |
| BigKeys.MergeIsGlobalTop | apps/server/src/actions/bigkeys.ts:140-145 | merging the nodes' own lists gives the same sizes as sorting everything all nodes scanned |
| BigKeys.AllKeysSplit | apps/server/src/actions/bigkeys.ts:140-142 | every node's keys take part in the merge, each under its node's id |
| TopN.LargestOfParts | apps/server/src/actions/bigkeys.ts:140-145 | the N largest of two parts are the N largest of each part's N largest |
| TopN.SortIsSorted | apps/metrics/src/analyzers/scan-big-keys.js:45-45 | the reference sort is descending and keeps all values |
| Downsample.DownsampleMinMaxOrdered | apps/metrics/src/utils/helpers.js:32-90 | at most `maxPoints` points, all of the series, first and last kept, times not falling, and in each of `(maxPoints - 2) / 2` equal intervals no point of the series below or above everything kept of that interval |
| Downsample.FillBuckets | apps/metrics/src/utils/helpers.js:51-72 | each bucket ends with the first smallest and the first largest of its points |
| Downsample.EmitBuckets | apps/metrics/src/utils/helpers.js:74-85 | both extremes of every bucket are emitted, in time order overall |
| Downsample.LaterPointsAreInLaterBuckets | apps/metrics/src/utils/helpers.js:60-66 | a later point is never in an earlier bucket |
| Downsample.BucketsAreIntervals | apps/metrics/src/utils/helpers.js:45-66 | the buckets are equal intervals of the series' time, the last with its end |
| CpuUsage.FoldCpuUsage | apps/metrics/src/analyzers/calculate-cpu-usage.js:54-107 | the streaming fold gives the points of the batch definition thinned by the tolerance, and all of them without one |
| CpuUsage.CpuFold.Reduce | apps/metrics/src/analyzers/calculate-cpu-usage.js:54-85 | one more row keeps the accumulator the fold of all rows so far |
| CpuUsage.CpuFold.Finalize | apps/metrics/src/analyzers/calculate-cpu-usage.js:89-107 | the last point is flushed |
| CpuUsage.GroupsSnoc | apps/metrics/src/analyzers/calculate-cpu-usage.js:56-84 | adding a row to the open group or a new one is what the maximal runs of equal timestamps do |
| CpuUsage.RunIsMaximal | apps/metrics/src/analyzers/calculate-cpu-usage.js:59-60 | the batch definition's runs are of one timestamp and cannot be extended |
| CpuUsage.PointsOfAdvances | apps/metrics/src/analyzers/calculate-cpu-usage.js:61-74 | there is one point, in order, for each group after which time went on and whose counters did not fall, with the CPU time since the group before in percent of the wall time, and no other |
| CpuUsage.ValuesAreNotNegative | apps/metrics/src/analyzers/calculate-cpu-usage.js:65-66 | no value is negative |
| CpuUsage.KeptPointsDiffer | apps/metrics/src/analyzers/calculate-cpu-usage.js:29-34 | with a tolerance no kept point is near the one kept before it |
| CpuUsage.ThinnedIsSubsequence | apps/metrics/src/analyzers/calculate-cpu-usage.js:29-34 | thinning keeps a subsequence, beginning with the first point |
| CpuUsage.DroppedPointsAreNear | apps/metrics/src/analyzers/calculate-cpu-usage.js:29-34 | every point is kept or is within the tolerance of the last one kept before it |
| CpuUsage.PointsConserveCpuTime | apps/metrics/src/analyzers/calculate-cpu-usage.js:63-74 | with rising times and counters that do not fall, the points times their intervals add up to exactly the CPU time spent |
| KeyTrees.BuildKeyTree | common/src/key-tree-builder.ts:25-61 | the nodes built in place form a tree whose labels are those the key list calls for |
| KeyTrees.InsertKey | common/src/key-tree-builder.ts:33-57 | one key's walk adds its missing nodes, marks its last one and changes nothing else |
| KeyTrees.Enter | common/src/key-tree-builder.ts:43-52 | the child is there, made if it was missing, and the nodes still form a tree |
| KeyTrees.BuiltAt | common/src/key-tree-builder.ts:33-57 | a path has a node exactly when a key goes through it, is a leaf exactly when a key ends there, holds the last such key, and shows the delimiter of the first |
| KeyTrees.KeysAreFound | common/src/key-tree-builder.ts:33-60 | following children along a path finds a node exactly when a key goes through it, with the label it should have |
| KeyTrees.CountKeys | common/src/key-tree-builder.ts:63-69 | the count is the number of leaves under a node |
| KeyTrees.CountListedKeys | common/src/key-tree-builder.ts:25-69 | the count of a built tree is the number of distinct segment lists |
| KeyTrees.LastKeyIsLast | common/src/key-tree-builder.ts:54-57 | the key a leaf should hold is the last listed one with its segments |
| KeyTrees.SegmentsCollideExactly | common/src/key-tree-builder.ts:34-35 | two names share a leaf exactly when one is the other's segments joined by its own delimiter |
| KeyTrees.ColonBeforeDotBeforeBar | common/src/key-tree-builder.ts:19-23 | a colon splits a name wherever it stands, only without one a dot does, and only without both a bar |
| KeyTrees.DelimitersCollapse | common/src/key-tree-builder.ts:19-23 | three names that share a leaf |
| Strings.JoinsAreSplit | common/src/key-tree-builder.ts:35-40 | splitting undoes joining for segments without the delimiter |
| Strings.SplitsAreJoined | common/src/key-tree-builder.ts:35-40 | joining undoes splitting, for every text |
| JsonDiff.DiffEmptyExactly | common/src/json-utils.ts:44-57 | the difference is empty exactly when the documents are equal without their empty nested containers |
| JsonDiff.DiffDecidesEquality | common/src/json-utils.ts:44-57 | without empty nested containers it is empty exactly for equal documents |
| JsonDiff.DiffIsExact | common/src/json-utils.ts:44-57 | it lists each scalar path of either document at which the lookups differ, once, with both values, and nothing else |
| JsonDiff.KeyPathsAt | common/src/json-utils.ts:27-34 | the key paths are the paths to scalars; a null root has none |
| JsonDiff.ScalarsDetermine | common/src/json-utils.ts:27-34 | a document whose containers all hold scalars is determined by the scalars at its paths |
| JsonDiff.EmptyContainerIsMissed | common/src/json-utils.ts:27-34 | an empty nested container is not seen |
| OwnerDirs.RoundTripExactly | apps/server/src/owner.ts:67-79 | decoding a directory name gives the owner key back exactly for the keys that are not cut |
| OwnerDirs.UncutNamesAreDistinct | apps/server/src/owner.ts:60-66 | keys that are not cut have different names even where case is ignored |
| OwnerDirs.PercentDecodes | apps/server/src/owner.ts:67-73 | percent-encoding is undone in either case of the digits |
| OwnerDirs.NamesNameWhatTheyDecodeTo | apps/server/src/owner.ts:67-79 | any name that decodes is the name of what it decodes to |
| OwnerDirs.CutDecodes | apps/server/src/owner.ts:74-76 | a cut inside an escape does not decode, and a cut elsewhere decodes to what encodes to it |
| OwnerDirs.BytesAreKeptOrEscaped | apps/server/src/owner.ts:56-73 | lowercase letters, digits, `_`, `~` and `-` stay, and every other byte becomes an escape of two uppercase digits |
| OwnerDirs.NamesFit | apps/server/src/owner.ts:57-76 | every name is at most 200 bytes long, and a longer encoding is cut to its first 180 bytes, `~h` and the digest |
| AuthMessages.MessagesAreInjective | common/src/orchestrator-auth.ts:122-152 | two signable claims have one message exactly when route, node, time and, when registering, address agree |
| AuthMessages.SignableExactly | common/src/orchestrator-auth.ts:106-154 | exactly which claims have a message |
| AuthMessages.CreatesExactly | common/src/orchestrator-auth.ts:166-178 | a credential is `v1;` and the tag, for exactly the signable claims under a usable key |
| AuthMessages.AcceptsExactlyWhatWasCreated | common/src/orchestrator-auth.ts:210-255 | a credential is accepted exactly when it is the one created for the request's own fields and its time is at most the window, 60 seconds unless given, from now either way |
| AuthMessages.CredentialIsForOneClaim | common/src/orchestrator-auth.ts:193-196 | where tags tell messages apart, one credential is good for one claim only, over both routes |
| AuthMessages.ExpiredIsStale | common/src/orchestrator-auth.ts:241-248 | a valid credential out of its window is reported as stale, with its skew |
| AuthMessages.RejectsInOrder | common/src/orchestrator-auth.ts:227-252 | what each request is told, in the order of the checks |
| AuthMessages.MessageSplits | common/src/orchestrator-auth.ts:93-101 | splitting a message gives back the signed fields |
| AuthMessages.MessagesRead | common/src/orchestrator-auth.ts:119-152 | the exact text of a registration's message and of a ping's |
| CommandArgs.ParseCommandArgs | common/src/command-restrictions.ts:10-55 | the index loops terminate and read what the grammar of quotes and escapes says |
| CommandArgs.CommandsRoundTrip | common/src/command-restrictions.ts:6-9 | a command written from arguments, in any mix of quoting, is parsed into these arguments |
| CommandArgs.EscapedIsRead | common/src/command-restrictions.ts:22-44 | a quoted text with escapes is read back up to its closing quote |
| CommandArgs.OpenQuoteTakesTheRest | common/src/command-restrictions.ts:22-33 | a quote left open takes the rest of the text, and a backslash at the very end stands for itself |
| CommandArgs.WordIsRead | common/src/command-restrictions.ts:45-51 | an unquoted word is read back up to a space or a quote |
| CommandArgs.WhiteSpace | common/src/command-restrictions.ts:12-17 | the characters that separate words, as JavaScript has them |

## Left out

- Everything that talks to a server or a user: Glide, iovalkey, WebSocket, HTTP and Express code, child-process options, the React application, Electron and packaging.
- Errors from the server in the sorted-set reader and the cluster scan end the call; the model is of calls whose commands succeed, on a set that does not change.
- BYLEX on sets that are not name-ordered is any function; what a particular server version answers there is not modelled.
- Log files: only files of one prefix; a prefix that begins another one's file names is not modelled. Lines are counted in characters, as the code's budget does, and file sizes are taken to agree (ASCII). Rows without a finite timestamp, which the code dates by the clock, and lines that do not parse are left out. Reads do not overlap writes, and files of different days are born in the same millisecond only with rising numbers.
- NdjsonReaders.StreamNdjson: keeps the default reducer; other reducers fold over the same rows.
- RetryRunner: the 5 second timer and the backoff are events without a clock; that a request may reach a node although its attempt timed out is not modelled.
- ConfigSessions: socket events come only when every resolved session has acted on its result, since no event of the event loop comes between two promise reactions of one drain. The per-node requests and the fields of a reply other than its outcome are left out; every session is given its targets.
- Owners: a teardown takes out one client; the topology it drops with it is an event of its own. The body of `connectToValkeyLocked` is a step that may add or drop a client; its retry path, topology join rule and cluster-client deduplication are left out. The preconfigured owner is registered before any connect.
- Collectors.OwnerCollectors.ReconcileCluster: states a round that nothing interrupts, because what other tasks do between its awaits may undo it; that the books stay balanced under any interruption is stated for its blocks.
- Collectors: Web mode only. Reconcile rounds are stated for one cluster at a time, because with several clusters in one owner each round removes what only the others need. A process that exits by itself is not modelled.
- BigKeys.MinHeap: a heap as far as its callers can tell; which of several smallest entries is on top, and which of several equal sizes are kept, is open. Types, TTLs and frequencies of keys are not modelled, and the sums and the scan time of a merged reply are left out.
- The filter of CPU rows by metric and time is left out. Downsample and CpuUsage compute with exact numbers; rounding of floating point is not modelled. Timestamps are integers.
- KeyTrees: the order of a node's children is not modelled; counting does not depend on it.
- JsonDiff: lookups see own keys only, so the length of arrays, the characters of strings and inherited properties are not values one can look up. Numbers are exact, and the helpers that turn a difference back into JSON are left out.
- OwnerDirs: keys are byte sequences; that a decoded key is valid UTF-8 follows from the round trip for the keys that were, and is otherwise left out. The digest is any function with 16 hexadecimal digits.
- AuthMessages: the tag is any function that is not empty; the strength of HMAC is an assumption of `CredentialIsForOneClaim`. Timestamps that print in exponent notation, from 10^21 on, are left out, and so is comparing in constant time.
- CommandArgs: the tables of blocked and confirmed commands are left out, matching them is a comparison of prefixes.
- Identifier normalisation (`toNodeId`, `normalizeEndpoint`), list edits, the hot-slot scan, the failed-login limiter and formatters are left out.
