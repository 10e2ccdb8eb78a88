# RPC State Indexer: verified model

A Dafny model of the hard core of a fail-closed historical state indexer: what it reads from
JSON-RPC providers, what it writes to its store, and why a published number can be believed. The
model covers gap-free event discovery and the holder universe it yields, wallet sweeps, the
writer lock, the two verified call executors, the collectors for plain and scaled token balances
and for concentrated liquidity, the canonical digests, the publication gate, day anchors, and the
SQL splitter of the migration runner.

Providers, endpoint health, store faults and stale reads are functions of a call number that the
theorems quantify over, so "any provider" and "any crash point" are meant literally. Where the program
is concurrent the model is a step relation and the theorems range over all schedules: the writer lock
per store access, the Multicall3 batches per request, discovery runs and census attempts per store
call. What the design assumes of the world appears as an explicit predicate in the statement that
needs it:

- `Scanner.Honest`: an answer shorter than the result cap is complete for its filter and range.
- `Logs.WellFormedChain`: a log lies in its own block and is named by its block and log index and by
  its identity.
- `Discovery.ConsistentCatalog`: one configuration per token and one event per topic0 of a token;
  `Discovery.SharedTopicIff` shows exactly when two events could share a topic0.
- `Discovery.FirstSeen`: holder rows merge by the least first-seen block.
- `WriterGuard`: reads see all earlier writes; no holder's stored beat ages past the window.
- `PublishedRows.Injective`, and the premise of `LegacyBatch.QuorumAgreement`: the hash does not
  collide. Everywhere else a digest is an arbitrary function.
- `Census.CensusStore.Lean`: an insert may drop or alter rows but never stores more than it is given.
- `ProvenCollection.Legible`: the text of a call key can be read back.

Addresses, hashes and topic words are the numbers they spell; text is its UTF-8 bytes; call keys are
what their spelling says. Widths such as the 32 bytes of a word are parameters of the general lemmas
and take the program's value at the entry points.

Properties that turned out false of the code, with the condition under which they hold:

- The profile's comment says that a published pool cannot have negative liquidity. The two reconcile
  checks do not imply it (`Profile.ReconciledYetNegative`); it holds exactly for ticks that come from
  positions (`Profile.PositionsExistIff`).
- The CL digest is not independent of row order when different rows share a tick
  (`Digests.ClashingTicks`); it is exactly otherwise (`Digests.ClStreamOrderIff`).
- A stale fast read-back is meant to be settled by a consistent one. For CL pools a fast read that
  misses the state row raises instead and is not repeated, so a good attempt fails: where nothing else
  fails it is published exactly when the fast read sees that row (`PublishedRows.ClPublishable`, and
  `PublishedRows.RunClAttempt` for such a run). For tokens this cannot happen
  (`PublishedRows.TokenPublishable`).
- An attempt that raised can still be visible as published: exactly if a publishable result loses the
  reply to its publication and then its failed row (`Census.CensusService.RunForetold`, stated on the
  store's faults; `Census.VisibleIff` for any other faults and losses before;
  `PublishedRows.RunLosingMessages` for such runs).
- A raw call digest does not tell a missing error code from -2^31 nor a missing message from an empty
  one (`LegacyBatch.RawDefaultCollides`), and confuses nothing else (`LegacyBatch.RawStreamIff`).
  Neither executor produces both forms, so no comparison in the program meets the clash
  (`LegacyBatch.CandidStreams`).
- Lock exclusion fails if a holder's beat goes stale (`WriterGuard.OvertakenHolder`), and only then
  (`WriterGuard.RunBreaksIff`); `WriterGuard.AcquireBreaksIff` gives the states in which it can.

## Layout

| file | models |
|---|---|
| `Intervals`, `Logs`, `Scanner`, `Discovery`, `DiscoveryRuns` | block ranges, logs and filters, the log scanner, crash-safe discovery, concurrent runs |
| `Sweep`, `Universes` | wallet sweeps, universe selectors |
| `WriterGuard` | the writer lock as a state machine |
| `Endpoints`, `Calls`, `Multicall`, `MulticallTasks`, `MulticallExecutor`, `LegacyBatch` | endpoint selection, Multicall3 answers, concurrent batches, the executor on one batch, the JSON-RPC batch executor |
| `UIntCalls`, `TokenResults`, `Erc20`, `AToken`, `ProvenCollection` | token collection, and its composition with the executors |
| `Words`, `Ticks`, `Profile` | ABI words, tick bitmaps and structs, the liquidity profile |
| `Bytes`, `Digests`, `Census`, `CensusRuns`, `PublishedRows` | canonical streams, the publication gate, concurrent attempts, what a publication means |
| `Anchors`, `SqlSplit` | day anchors, the SQL splitter |
| `Sorting`, `SortedSets`, `Wrappers` | shared definitions |

`dafny verify dfyconfig.toml` checks everything. Every induction is written out in a lemma body: no lemma
relies on automatic induction.

## Model

| member | source | states |
|---|---|---|
| `Intervals.Split` | src/rpc_state_indexer/core/discovery.py:55-62 | the two halves meet in the middle, the lower one not the larger, and together are the range |
| `Intervals.MergeCoverage` | src/rpc_state_indexer/core/discovery.py:262-278 | the merged ranges hold exactly the blocks of the input and are sorted with at least one block between neighbours |
| `Intervals.SeparatedUnique` | src/rpc_state_indexer/core/discovery.py:262-278 | that form is unique: ranges in this form with the same blocks are the same list, so merging does not depend on how or in what order coverage was recorded |
| `Intervals.CoverageGaps` | src/rpc_state_indexer/core/discovery.py:296-318 | the gaps are exactly the required blocks that are not covered, as maximal ranges inside the required one |
| `Intervals.ContiguousFrontier` | src/rpc_state_indexer/core/discovery.py:281-293 | the frontier is the least uncovered block from the start on |
| `Intervals.FrontierMeetsGaps` | src/rpc_state_indexer/core/discovery.py:281-318 | the frontier reaches the end of the required range if and only if there are no gaps; otherwise it is the start of the first gap |
| `Intervals.TilesPartition` | src/rpc_state_indexer/core/discovery.py:262-278 | consecutive ranges hold each block of their span exactly once and nothing else |
| `Logs.HoldersExact` | src/rpc_state_indexer/core/discovery.py:143-163 | holder extraction yields exactly the addresses in the configured topics, and raises exactly when a position is missing or is no address word |
| `Scanner.ParseAll` | src/rpc_state_indexer/core/discovery.py:199-247 | an answer parses if and only if every entry is a well-formed, non-removed log that matches filter and range; then the logs are those of the entries, in order |
| `Scanner.Deduplicate` | src/rpc_state_indexer/core/discovery.py:250-259 | refuses exactly the lists with two different logs under one identity; otherwise returns the same logs, sorted, once each |
| `Scanner.InitialChunks` | src/rpc_state_indexer/core/discovery.py:394-403 | the initial work list tiles the request in chunks of at most the configured size |
| `Scanner.BudgetOfTiling` | src/rpc_state_indexer/core/discovery.py:407-436 | the pending sum of 2·size−1 of a stack that tiles a span is determined by the span and the stack height |
| `Scanner.SplitTop` | src/rpc_state_indexer/core/discovery.py:55-62 | splitting the top range keeps the tiling and lowers the pending sum by one |
| `Scanner.HonestAnswerExact` | src/rpc_state_indexer/core/discovery.py:356-368 | an answer shorter than the cap, from a provider whose uncapped answers are complete, parses to exactly the matching logs of its range |
| `Scanner.ScanStep` | src/rpc_state_indexer/core/discovery.py:438-449 | accepting one answer keeps the scan invariant and moves the frontier to the end of its range |
| `Scanner.NoGapsInTiling` | src/rpc_state_indexer/core/discovery.py:451-454 | the final gap check of a scan can never fire |
| `Scanner.ScanFilter` | src/rpc_state_indexer/core/discovery.py:387-459 | for any provider: terminates in fewer than twice as many requests as blocks; the completed ranges tile the request, each backed by an answer below the cap; the logs are sorted and distinct. For a provider with complete answers below the cap the logs are exactly the chain's matching logs, and the scan succeeds if single blocks are always served |
| `Discovery.SharedTopicIff` | src/rpc_state_indexer/core/discovery_service.py:60-81 | coverage is kept per topic0, so a scan for one event stands for another with the same topic0: it finds that event's holders for every log if and only if it looks at all of its topic positions |
| `Discovery.FirstSeen` | migrations/002_discovery.sql:35-55 | the merged first-seen block of a key is the least one stored for it |
| `Discovery.MembersExact` | src/rpc_state_indexer/core/universes.py:63-96 | under the invariant, the members read at an anchor of a fully covered token are exactly the address and event pairs mentioned in its logs from deployment through the anchor |
| `Discovery.Observe` | src/rpc_state_indexer/core/discovery_service.py:176-179 | each holder with the blocks of its mentions in log order, once per mention, or nothing exactly where a holder topic is malformed |
| `Discovery.HolderRows` | src/rpc_state_indexer/core/discovery_service.py:180-192 | one row per observed holder, with the least and the greatest block of its mentions and their number |
| `Discovery.ScanRangesJustified` | src/rpc_state_indexer/core/discovery_service.py:194-199 | once the holder rows of a gap are stored, its completed markers are justified |
| `Discovery.StoreKeeps` | src/rpc_state_indexer/core/discovery_service.py:194-198 | storing the holders of a scanned gap keeps the invariant, whatever other runs stored meanwhile |
| `Discovery.MarkKeeps` | src/rpc_state_indexer/core/discovery_service.py:194-199 | so does marking the gap, once its holders are stored |
| `Discovery.DiscoveryService.Scan` | src/rpc_state_indexer/core/discovery_service.py:83-192 | the markers of a scan that succeeds tile the gap and, for a trusted provider, its holder rows are those of exactly the matching logs of the gap; a provider that is honest and serves single blocks, with readable logs, makes it succeed |
| `Discovery.DiscoveryService.ScanGap` | src/rpc_state_indexer/core/discovery_service.py:83-199 | whatever the provider and the store do, tables only grow, the invariant survives, and a return without error leaves the gap covered |
| `Discovery.DiscoveryService.Advance` | src/rpc_state_indexer/core/discovery_service.py:52-81 | after a return every event is covered from deployment through the anchor and the members at the anchor are exact, whatever was scanned or lost before; it returns if the anchor is not before deployment, the provider serves the token and none of its store calls meets a fault |
| `Discovery.DiscoveryService.AdvanceMany` | src/rpc_state_indexer/core/discovery_service.py:52-199 | over any sequence of runs, in any order of tokens and anchors and with any of them failing around any store call, every covered block has its holders stored with a first-seen block no later, every run that did not fail still has its coverage and its exact members at the end, and where no store call met a fault only runs that the provider does not serve or whose anchor is before deployment have failed |
| `DiscoveryRuns.KnowsMono` | src/rpc_state_indexer/core/discovery_service.py:60-81 | what a run has established survives whatever other runs append |
| `DiscoveryRuns.StepKeeps` | src/rpc_state_indexer/service.py:187-192 | one store call of any of several concurrent runs keeps the invariant and what every run has established |
| `DiscoveryRuns.EveryInterleaving` | src/rpc_state_indexer/service.py:187-192 | in every interleaving of the store calls of any number of runs, with any of them failing anywhere, covered blocks have their holders stored, and once a run has returned the members at its anchor are exact and stay so |
| `Universes.ResolvesIff` | src/rpc_state_indexer/core/universes.py:161-244 | a selector resolves if and only if no walk from it through child selectors repeats a name and every walk ends at a selector that exists, can be read and has children |
| `Universes.StackIrrelevant` | src/rpc_state_indexer/core/universes.py:161-178 | the stack of names being resolved only stops resolution; on success it does not influence the members |
| `Universes.SetAlgebra` | src/rpc_state_indexer/core/universes.py:228-242 | a resolved union contains what some child contains, an intersection what every child contains, each child resolved on its own |
| `Universes.Provenance` | src/rpc_state_indexer/core/universes.py:228-242 | a member carries exactly the labels that its containing children give it |
| `WriterGuard.RowsMatchStep` | src/rpc_state_indexer/service.py:221-323 | every step keeps: each row carries the class of its process, and every writer that has written its beat or holds has a row |
| `WriterGuard.StepBreaksIff` | src/rpc_state_indexer/service.py:221-241 | from an exclusive state a step puts two writers of one class in possession if and only if it is a second read while a holder of the class has an expired beat and no other process of the class has a fresh one |
| `WriterGuard.RunBreaksIff` | src/rpc_state_indexer/service.py:221-323 | writers of one class overlap somewhere in a run if and only if the run contains such a step |
| `WriterGuard.AcquireBreaksIff` | src/rpc_state_indexer/service.py:221-241 | an idle writer that acquires undisturbed ends up beside another holder if and only if a holder of its class exists and no row of the class is fresh |
| `WriterGuard.FreshHoldersAdmitNobody` | src/rpc_state_indexer/service.py:231-241 | while holders are fresh, the second read of every other writer of the class sees one |
| `WriterGuard.MutualExclusion` | src/rpc_state_indexer/service.py:221-323 | in every interleaving of any number of writers, with writes lost and processes dying at any step, two writers of one class never hold together, as long as no holder's beat ages past the window |
| `WriterGuard.ExclusionFromStart` | src/rpc_state_indexer/service.py:195-219 | the same from an empty heartbeat table and idle writers |
| `WriterGuard.LoneWriterAcquires` | src/rpc_state_indexer/service.py:221-241 | a writer with no fresh rival in its class does acquire |
| `WriterGuard.ReleasedIsStale` | src/rpc_state_indexer/service.py:243-275 | a stored release leaves the process without a fresh row |
| `WriterGuard.OvertakenHolder` | src/rpc_state_indexer/service.py:302-323 | a run in which a lost heartbeat lets a holder's beat go stale and a second writer acquires: why freshness is assumed |
| `WriterGuard.ClassesCoexist` | src/rpc_state_indexer/storage/repositories.py:622-649 | `discover` and any other operation can hold at the same time |
| `Endpoints.EndpointPool.Select` | src/rpc_state_indexer/rpc/endpoint_pool.py:28-48 | round robin: the first eligible endpoint from the cursor on, none if and only if none is eligible, and the cursor moves past it |
| `Endpoints.EndpointPool.SelectDistinctGroups` | src/rpc_state_indexer/rpc/endpoint_pool.py:50-71 | succeeds if and only if enough different groups can serve, and returns one endpoint of each of that many pairwise different groups |
| `Multicall.SentinelsUnique` | src/rpc_state_indexer/execution/multicall3.py:357-372 | the sentinel check accepts one triple only: the anchor's number, timestamp and parent hash as 32-byte words |
| `Calls.Chunked` | src/rpc_state_indexer/execution/multicall3.py:84-96 | the groups concatenate to the calls, and none is empty or larger than the batch size |
| `MulticallExecutor.Multicall3Executor.EthCall` | src/rpc_state_indexer/execution/multicall3.py:171-252 | an answer is that of the last request sent, from an endpoint the caller did not exclude, and a task about to begin such a round can take the same steps |
| `MulticallExecutor.Multicall3Executor.ExecuteOnce` | src/rpc_state_indexer/execution/multicall3.py:278-355 | results in call order, each an entry of an answer with n+6 entries whose six sentinels match the anchor, also after single-call retries, by steps that a task can take |
| `MulticallExecutor.Multicall3Executor.ExecuteAdaptive` | src/rpc_state_indexer/execution/multicall3.py:129-147 | halving keeps order and proof of every result, for any pattern of provider limits, by steps that a task can take |
| `MulticallExecutor.Multicall3Executor.ExecuteAlone` | src/rpc_state_indexer/execution/multicall3.py:94-96 | the executor's own loops on a single group are a schedule of one task, with the same result and the same requests |
| `MulticallTasks.WalkPlays` | src/rpc_state_indexer/execution/multicall3.py:129-355 | any sequence of steps of one task is a schedule of a world with that task alone |
| `MulticallTasks.AdvanceSound` | src/rpc_state_indexer/execution/multicall3.py:129-355 | one request of one task, whatever the answer, keeps its results in order and backed by proven answers and its pending parts the rest of its calls |
| `MulticallTasks.ApplySound` | src/rpc_state_indexer/execution/multicall3.py:108-120 | whichever task sends its next request, to whatever endpoint selection yields, every task keeps that |
| `MulticallTasks.AllSchedules` | src/rpc_state_indexer/execution/multicall3.py:108-120 | so it holds after every schedule of requests of any number of concurrent batches |
| `MulticallTasks.AdvanceRank` | src/rpc_state_indexer/execution/multicall3.py:129-355 | each step of a running task lowers a bound on the steps it can still take, so every schedule ends |
| `MulticallTasks.SlotsBacked` | src/rpc_state_indexer/execution/multicall3.py:122-127 | finished tasks joined by input index answer all calls in order, each backed by a proven answer |
| `MulticallTasks.AdvancePristine` | src/rpc_state_indexer/execution/multicall3.py:129-355 | where selection yields an endpoint and every request gets a proven answer or, with more than one call, is refused as too large, no step of a task goes wrong |
| `MulticallTasks.Execute` | src/rpc_state_indexer/execution/multicall3.py:84-127 | under any scheduler it ends, and a result's flattened keys equal the input keys in order with every result backed by an answer of n+6 entries whose six sentinels match; an anchor below the contract's deployment is refused; it succeeds under every schedule in which selection always yields an endpoint and every request is served |
| `LegacyBatch.BuildRequests` | src/rpc_state_indexer/execution/legacy_rpc_batch.py:51-73 | request ids are 1, 2, … in call order |
| `LegacyBatch.DecodeResponses` | src/rpc_state_indexer/execution/legacy_rpc_batch.py:76-131 | accepts if and only if there is exactly one well-formed answer per request id, and decodes by ascending id |
| `LegacyBatch.OrderIrrelevant` | src/rpc_state_indexer/execution/legacy_rpc_batch.py:76-131 | reordered responses are accepted alike and decode to the same results |
| `LegacyBatch.CallOrder` | src/rpc_state_indexer/execution/legacy_rpc_batch.py:51-131 | with the ids that are built, ascending id is call order |
| `LegacyBatch.DecodeCalls` | src/rpc_state_indexer/execution/legacy_rpc_batch.py:51-131 | build then decode: each call has its own answer, in call order |
| `LegacyBatch.RawStreamIff` | src/rpc_state_indexer/execution/base.py:54-69 | two lists of results feed the same bytes if and only if they are as long and, call by call, keys, flags and data agree, the codes are equal or one is missing and the other -2^31, and the messages are equal or one is missing and the other empty |
| `LegacyBatch.RawDefaultCollides` | src/rpc_state_indexer/execution/base.py:54-69 | a missing code and the default one feed the same bytes, and so do a missing message and the empty one |
| `LegacyBatch.CandidStreams` | src/rpc_state_indexer/execution/legacy_rpc_batch.py:102-131 | results that carry a code and a message exactly when they failed, as this executor makes them, feed the same bytes only if they are the same |
| `LegacyBatch.DecodeIndividual` | src/rpc_state_indexer/execution/legacy_rpc_batch.py:310-346 | calls sent one by one: accepted if and only if every outcome is hex data or an error, and each call has its own outcome, in order |
| `LegacyBatch.LegacyRpcBatchExecutor.ExecuteOnce` | src/rpc_state_indexer/execution/legacy_rpc_batch.py:181-250 | a hash-pinned exchange, batched or call by call, that answers every call, or a quorum result |
| `LegacyBatch.LegacyRpcBatchExecutor.ExecuteNumberQuorum` | src/rpc_state_indexer/execution/legacy_rpc_batch.py:252-281 | an accepted result rests on the required number of pairwise different provider groups whose results have one digest |
| `LegacyBatch.LegacyRpcBatchExecutor.ExecuteAdaptive` | src/rpc_state_indexer/execution/legacy_rpc_batch.py:160-179 | the calls split into consecutive parts, each with its own verified batch |
| `LegacyBatch.LegacyRpcBatchExecutor.Execute` | src/rpc_state_indexer/execution/legacy_rpc_batch.py:152-158 | over all groups: consecutive parts, each backed by a hash-pinned exchange or a quorum, and the results in call order; it succeeds if hash-pinned endpoints can always serve and every such exchange answers its calls or, with more than one, is refused as too large |
| `LegacyBatch.QuorumAgreement` | src/rpc_state_indexer/execution/legacy_rpc_batch.py:252-281 | if the hash does not collide, every group of a quorum returned exactly the accepted results |
| `Bytes.DecodeEncode` | src/rpc_state_indexer/storage/digests.py:66-81 | a number is recovered from its big-endian bytes |
| `Bytes.PeelText` | src/rpc_state_indexer/storage/digests.py:84-88 | length-prefixed text is uniquely separable from what follows |
| `Digests.PartsDetermine` | src/rpc_state_indexer/storage/digests.py:91-217 | the fields written for a record determine the record, up to the pool of a tick |
| `Digests.StreamInjective` | src/rpc_state_indexer/storage/digests.py:91-217 | a byte stream has one reading as a sequence of records |
| `Digests.TokenStreamCanonical` | src/rpc_state_indexer/storage/digests.py:119-158 | two token inputs feed the same bytes if and only if they are the same multisets of balances and scalars |
| `Digests.PoolStreamCanonical` | src/rpc_state_indexer/storage/digests.py:161-181 | two pool inputs feed the same bytes if and only if they are the same multiset of rows |
| `Digests.ClStreamDetermines` | src/rpc_state_indexer/storage/digests.py:184-217 | two CL inputs feed the same bytes if and only if their states and their ticks sorted by tick agree |
| `Digests.ClStreamCanonical` | src/rpc_state_indexer/storage/digests.py:184-217 | where no two different rows share a tick: same bytes if and only if same state and same multiset of ticks |
| `Digests.ClStreamOrderIff` | src/rpc_state_indexer/storage/digests.py:184-217 | the CL stream is independent of the order of the tick rows if and only if no two different rows share a tick |
| `Digests.ClashingTicks` | src/rpc_state_indexer/storage/digests.py:184-217 | two rows with one tick, in two orders, feed different bytes |
| `Digests.CanonicalSourcesIff` | src/rpc_state_indexer/storage/digests.py:91-116 | source lists canonicalize alike if and only if they are the same set |
| `Digests.UniverseStreamCanonical` | src/rpc_state_indexer/storage/digests.py:91-116 | two universes feed the same bytes if and only if they are the same map from address to source set |
| `Digests.DomainsSeparate` | src/rpc_state_indexer/storage/digests.py:91-217 | streams of different kinds never coincide |
| `Digests.UniverseBytes` | src/rpc_state_indexer/storage/digests.py:91-116 | accepts exactly distinct addresses with values in range, and refuses a repeated address as such |
| `Digests.TokenBytes` | src/rpc_state_indexer/storage/digests.py:119-158 | the hashed bytes are the domain tag and the canonical stream; refused exactly when a value is out of range |
| `Digests.PoolBytes` | src/rpc_state_indexer/storage/digests.py:161-181 | the same for pools |
| `Digests.ClBytes` | src/rpc_state_indexer/storage/digests.py:184-217 | the same for CL pools, refusing also a tick of another pool |
| `Census.CensusService.InsertChunked` | src/rpc_state_indexer/core/census.py:629-647 | the chunks store the rows in order, each row once |
| `Census.CensusService.Persist` | src/rpc_state_indexer/core/census.py:432-476 | where inserts store what they are given and none of them fails, the attempt's rows and members are exactly the collected ones; inserts that only drop or alter rows leave no more than was collected; nothing is written for other attempts |
| `Census.CensusService.ReadRows` | src/rpc_state_indexer/core/census.py:853-871 | the digest returned is that of some of the attempt's rows, in order; where no read fails it is the fast one if that is as expected or raises, else the consistent one, after one or two reads |
| `Census.CensusService.PublicationChecks` | src/rpc_state_indexer/core/census.py:873-918 | passes only if the terminal error count that was read is zero, every batch is verified, every integrity check passed and all read-back digests match |
| `Census.CensusService.Publish` | src/rpc_state_indexer/core/census.py:957-999 | the verified row precedes the publication, which is written only once that row is acknowledged; each meets the fault of its own call number |
| `Census.CensusService.Run` | src/rpc_state_indexer/core/census.py:272-430 | under any faults, stale fast reads and lossy inserts, what an attempt leaves behind is the life that the store's faults give it, with a publication only where everything was attested; where nothing is lost before the verified row, it gets there if and only if the result is verified, its sum fits, and its rows can be digested, both all of them and those that the fast read-back sees, and the call number of that row is known beforehand |
| `Census.CensusService.RunForetold` | src/rpc_state_indexer/core/census.py:272-430 | such an attempt returns if and only if the result is publishable and its last two calls meet no fault, and readers see a publication although it raised if and only if the reply to the publication and the failed row are lost: all stated on the result and the store's faults |
| `Census.LifeForetold` | src/rpc_state_indexer/core/census.py:272-430 | the same for every life that fits the store's faults |
| `Census.CensusService.RunMany` | src/rpc_state_indexer/core/census.py:272-430 | over any sequence of attempts, every publication follows its attempt's verified row, is that attempt's only one, and rests on attested rows |
| `Census.AfterSeen` | src/rpc_state_indexer/core/census.py:272-348 | how many publications and which current status each life leaves |
| `Census.VisibleIff` | migrations/007_views.sql:94-154 | a run that returns leaves one publication, and readers see it while the other joins of the view find it; readers see a publication of a run that raised if and only if the replies to its started and verified rows arrived, that to the publication was lost, and so was the failed row |
| `Census.RunKeepsGated` | src/rpc_state_indexer/core/census.py:920-1014 | every run keeps: publications follow their verified row, one per attempt |
| `CensusRuns.MoveKnows` | src/rpc_state_indexer/core/census.py:272-430 | one store call of an attempt, under any fault, stale read or lossy insert, keeps what the attempt has established |
| `CensusRuns.DueKeepsGated` | src/rpc_state_indexer/core/census.py:957-999 | an attempt has a publication due only after its own verified row and without an earlier publication |
| `CensusRuns.StepKeeps` | src/rpc_state_indexer/service.py:1065-1070 | one store call of any of several concurrent attempts keeps the gate and what every attempt has established |
| `CensusRuns.EveryInterleaving` | src/rpc_state_indexer/service.py:1065-1070 | in every interleaving of the store calls of any number of attempts, every publication follows its attempt's verified row, is its only one and rests on tables that attest what was collected; once an attempt has returned readers see its publication, and they see none of an attempt still at work |
| `CensusRuns.InterleavedPublicationMeans` | src/rpc_state_indexer/core/census.py:281-287 | hence, for a hash without collisions, at every moment of every interleaving the tables of a published attempt hold the collected rows and universe |
| `PublishedRows.PublishedTokenRows` | src/rpc_state_indexer/storage/repositories.py:785-825 | for a hash without collisions, the stored rows of a published token are a permutation of the collected ones, even if inserts may drop or alter rows and the read-back was stale |
| `PublishedRows.PublishedClRows` | src/rpc_state_indexer/storage/repositories.py:846-893 | the stored state and ticks of a published CL pool are the collected ones |
| `PublishedRows.PublishedPoolRows` | src/rpc_state_indexer/storage/repositories.py:827-844 | the stored rows of a published reserve pool are a permutation of the collected ones |
| `PublishedRows.PublishedUniverse` | src/rpc_state_indexer/storage/repositories.py:771-783 | the stored universe of a published token is the resolved map from address to source set |
| `PublishedRows.BackedRowsHold` | src/rpc_state_indexer/core/census.py:873-918 | tables that attest what was collected hold it, for all kinds of target |
| `PublishedRows.PublicationMeans` | src/rpc_state_indexer/core/census.py:873-918 | from the journal to the tables: if a publication of an attempt is in the journal after any runs, its stored rows and universe are the collected ones; tokens, reserve pools and CL pools share the store |
| `PublishedRows.TokenSteady` | src/rpc_state_indexer/core/census.py:853-871 | whatever a read sees of a token's rows can be digested, so a stale fast read cannot block a good publication |
| `PublishedRows.UniverseSteady` | src/rpc_state_indexer/core/census.py:853-871 | so can whatever it sees of a universe |
| `PublishedRows.ClSnapshotIff` | src/rpc_state_indexer/storage/repositories.py:846-858 | what a read sees of a CL attempt's rows can be digested if and only if it includes the state row |
| `PublishedRows.TokenPublishable` | src/rpc_state_indexer/core/census.py:853-918 | a verified token whose rows are in range is publishable whatever the fast read-back sees |
| `PublishedRows.ClPublishable` | src/rpc_state_indexer/core/census.py:853-871 | a verified CL pool whose rows are in order is publishable if and only if the fast read-back sees the state row |
| `PublishedRows.RunClAttempt` | src/rpc_state_indexer/core/census.py:350-430 | a verified CL attempt, run against a store in which nothing fails and the fast read-back misses the rows at given places, is published if and only if the state row is not among them |
| `PublishedRows.RunLosingMessages` | src/rpc_state_indexer/core/census.py:350-430 | a verified CL attempt that meets given faults from its verified row on returns if and only if that row and the publication are acknowledged, and is visible although it raised if and only if the reply to the publication is lost and the failed row too |
| `Words.TopBit` | src/rpc_state_indexer/evm/decoding.py:178-188 | the sign bit of a value below 2^(n+1) is set if and only if the value is at least 2^n |
| `Words.PackBits` | src/rpc_state_indexer/evm/decoding.py:247-256 | packing bits into a word and testing them are inverse |
| `Words.SignedRoundTrip` | src/rpc_state_indexer/evm/calldata.py:46-57 | a value encodes to a word if and only if the word decodes to the value, for every width |
| `Words.UnsignedRoundTrip` | src/rpc_state_indexer/evm/decoding.py:168-175 | a word decodes to a value if and only if it is the value's big-endian form and the value is in range |
| `Ticks.PositionsEncodable` | src/rpc_state_indexer/evm/calldata.py:65-72 | every word position asked for, at every positive spacing, fits int16 and decodes back |
| `Ticks.TicksEncodable` | src/rpc_state_indexer/evm/calldata.py:60-62 | every tick within the bounds fits int24 and decodes back |
| `Ticks.DecodeBitmapWord` | src/rpc_state_indexer/evm/decoding.py:247-256 | accepts exactly 32 bytes and yields exactly the set bits |
| `Ticks.DiscoverTicks` | src/rpc_state_indexer/collectors/cl_liquidity.py:321-352 | for any answers: the marked ticks within bounds, ascending and once each, and one error per unreadable word |
| `Ticks.Locate` | src/rpc_state_indexer/collectors/cl_liquidity.py:307-319 | every valid tick has its bit in one of the words that are asked for, under both key conventions and every positive spacing |
| `Ticks.WordsExist` | src/rpc_state_indexer/collectors/cl_liquidity.py:307-319 | every set of ticks can be stored in bitmap words |
| `Ticks.DiscoveryExact` | src/rpc_state_indexer/collectors/cl_liquidity.py:307-352 | from the words of a pool whose valid ticks are any given set, discovery returns that set sorted, with no errors |
| `Ticks.StructDecoded` | src/rpc_state_indexer/evm/decoding.py:229-244 | the tick struct decodes to given values if and only if the data spell them |
| `Ticks.MaterializeTicks` | src/rpc_state_indexer/collectors/cl_liquidity.py:354-398 | one row per tick whose struct agrees that it is initialized, one error per other tick, in order |
| `Ticks.NothingDropped` | src/rpc_state_indexer/collectors/cl_liquidity.py:354-398 | no tick is dropped without an error; with no errors, row k is that of tick k |
| `Ticks.CollectionExact` | src/rpc_state_indexer/collectors/cl_liquidity.py:94-185 | from the answers of a pool that holds given positions, the rounds recover its boundary ticks with their net liquidity exactly |
| `Ticks.CollectedPoolReconciles` | src/rpc_state_indexer/collectors/cl_liquidity.py:400-415 | for such ticks the reconcile checks pass if and only if the reported liquidity is that of the positions over the current tick |
| `Profile.Segments` | src/rpc_state_indexer/compute/cl_profile.py:80-112 | one segment per gap with its running sum; raises if and only if one of those sums is negative |
| `Profile.CurrentSegment` | src/rpc_state_indexer/compute/cl_profile.py:80-112 | when the reconcile checks pass, the segment that holds the current tick carries the on-chain liquidity |
| `Profile.PositionsReconcile` | src/rpc_state_indexer/collectors/cl_liquidity.py:400-415 | ticks of positions pass both checks if and only if the reported liquidity is that of the positions over the current tick |
| `Profile.ProfileOfPositions` | src/rpc_state_indexer/compute/cl_profile.py:80-112 | for any collection of positions the profile never raises, tiles the span of the ticks, and each segment carries at each of its points the liquidity of the positions that cover it |
| `Profile.ReconciledYetNegative` | src/rpc_state_indexer/compute/cl_profile.py:91-98 | ticks that pass both reconcile checks and still have a negative segment |
| `Profile.PositionsExistIff` | src/rpc_state_indexer/compute/cl_profile.py:91-98 | ticks are those of some positions if and only if they sum to zero and no running sum is negative |
| `Sweep.ScanWindows` | src/rpc_state_indexer/core/sweep_service.py:44-53 | windows of at most the given size that tile the range in order |
| `Sweep.GapWindows` | src/rpc_state_indexer/core/sweep_service.py:103-108 | the windows of all gaps hold the same blocks, in order, none twice |
| `Sweep.FilterMatches` | src/rpc_state_indexer/core/sweep_service.py:145-148 | the filter matches exactly the logs that carry one of the wallets at the position |
| `Sweep.LogRows` | src/rpc_state_indexer/core/sweep_service.py:189-216 | a row per log under the wallet it carries; the mismatch error can never fire after a scan |
| `Sweep.RangeRows` | src/rpc_state_indexer/core/sweep_service.py:218-248 | a completed marker per completed range and wallet: they cover the window for every wallet, and no two claim a block for the same wallet |
| `Sweep.AddToGroup` | src/rpc_state_indexer/core/sweep_service.py:92-102 | each group holds different wallets that miss exactly its gaps; no two groups have the same gaps and no wallet is in two; wallets in none miss nothing |
| `Sweep.WindowJustified` | src/rpc_state_indexer/core/sweep_service.py:250-257 | once the logs of a window are stored its markers are justified |
| `Sweep.SweepService.ScanWindow` | src/rpc_state_indexer/core/sweep_service.py:135-257 | logs are stored before markers, under any crash; a return leaves the window covered for every wallet of the group; every row it writes, completed or failed, is for these wallets within the window, none claims a block twice, and it sends fewer than two requests per block |
| `Sweep.RowsAreNew` | src/rpc_state_indexer/core/sweep_service.py:80-133 | rows written for scans of missing blocks only touch blocks that their wallet missed before |
| `Sweep.WritesJoin` | src/rpc_state_indexer/core/sweep_service.py:80-133 | consecutive scans that touch nothing in common leave markers that claim nothing in common |
| `Sweep.SweepService.Advance` | src/rpc_state_indexer/core/sweep_service.py:80-133 | after a return every wallet is covered over the required range at every position; every marker added, completed or failed, is for one of the wallets and positions, within the required range, and touches only blocks that wallet missed at the start, no block claimed twice; the scans made are exactly those of the missing blocks, each once, with fewer than two requests per block; no crash leaves a marker without its logs; an empty universe or range is an error and changes nothing; it returns if every block is served and none of its store calls meets a fault |
| `UIntCalls.DecodeUint256` | src/rpc_state_indexer/evm/decoding.py:22-38 | a value is observed if and only if the call succeeded with exactly 32 bytes, and it is their big-endian number |
| `UIntCalls.ExecuteUIntCalls` | src/rpc_state_indexer/collectors/common.py:92-141 | accepts if and only if the keys are distinct, every batch is verified at the anchor with a matching digest, and each key is answered exactly once; each key then holds its own result however the calls were batched |
| `UIntCalls.CompleteIff` | src/rpc_state_indexer/collectors/common.py:144-150 | the completeness check passes if and only if every call succeeded |
| `TokenResults.ReadExactly` | src/rpc_state_indexer/collectors/erc20.py:158-192 | each key gives a value or an error, in order; no errors if and only if all are good |
| `TokenResults.MakeScalarSpecs` | src/rpc_state_indexer/collectors/erc20.py:109-127 | refuses exactly duplicate and unknown supply functions |
| `Erc20.Collect` | src/rpc_state_indexer/collectors/erc20.py:74-248 | returns if and only if the request is admissible and the answer acceptable; verified if and only if every call returned a word and, in full-supply mode, the holder sum meets the supply within the allowance; a verified result lists every universe address once, in order, with its returned word |
| `Erc20.ExactSupply` | src/rpc_state_indexer/collectors/erc20.py:48-59 | at zero tolerance a verified full-supply result sums to totalSupply minus the balance of a sentinel zero address, exactly |
| `AToken.RayMulNearest` | src/rpc_state_indexer/collectors/atoken.py:27-39 | the product is the nearest integer with ties up, and the only one |
| `AToken.RoundingBound` | src/rpc_state_indexer/collectors/atoken.py:170-193 | the sum of n reconstructed balances times RAY is within n·HALF_RAY of the scaled sum times the index |
| `AToken.BoundAttained` | src/rpc_state_indexer/collectors/atoken.py:27-39 | that bound is attained for every n |
| `AToken.Reconstruct` | src/rpc_state_indexer/collectors/atoken.py:157-193 | in order, a row per balance whose reconstruction fits and an error per other |
| `AToken.ReconstructedInOrder` | src/rpc_state_indexer/collectors/atoken.py:157-193 | every balance gives a row or an error; none fails if and only if all fit, and then row k is that of balance k |
| `AToken.Collect` | src/rpc_state_indexer/collectors/atoken.py:46-235 | returns if and only if the request is admissible and the answer acceptable; verified if and only if every call returned a word, every reconstruction fits and the scaled sum is the scaled total supply |
| `AToken.SupplyWithinRounding` | src/rpc_state_indexer/collectors/atoken.py:157-222 | a verified scaled-full-supply result differs, times RAY, from scaledTotalSupply times the index by at most n·HALF_RAY |
| `ProvenCollection.RunMulticall` | src/rpc_state_indexer/execution/multicall3.py:83-129 | whatever the scheduler, every result that the Multicall3 executor returns is backed, in call order, by a sentinel-proven answer; it returns whenever the execution must succeed |
| `ProvenCollection.RunBatches` | src/rpc_state_indexer/execution/legacy_rpc_batch.py:151-158 | every result of the batch executor is backed, in call order, by a hash-pinned exchange or a provider quorum; it returns whenever the execution must succeed |
| `ProvenCollection.ProvenAt` | src/rpc_state_indexer/execution/base.py:30-51 | a word at a place of the results was proven for the call at that place, by either executor |
| `ProvenCollection.AlwaysAccepted` | src/rpc_state_indexer/collectors/common.py:92-141 | a collector never rejects what an executor returns: every key is answered once by verified batches at the anchor |
| `ProvenCollection.ReturnedProven` | src/rpc_state_indexer/collectors/common.py:92-141 | whatever word a collector reads for a call, a proven answer returned it for that very call |
| `ProvenCollection.CollectErc20` | src/rpc_state_indexer/collectors/erc20.py:74-248 | over either executor the plain collector returns if and only if the request is admissible and the execution succeeded; every balance of a verified result, and in full-supply mode the supply and the zero-address balance it is checked with, was proven for its own call |
| `ProvenCollection.CollectAToken` | src/rpc_state_indexer/collectors/atoken.py:46-235 | the same for the scaled collector: the index, every scaled balance and the scaled supply were proven, and the balances are their products, rounded to nearest |
| `Anchors.SafeTip` | src/rpc_state_indexer/core/anchors.py:158-179 | the tip is the block the endpoint gives for the finality tag or, only where it refuses or lacks that tag, the block it serves the given depth below its latest; in at most three reads, and a transport failure never downgrades |
| `Anchors.CeilLog2Exact` | src/rpc_state_indexer/core/anchors.py:206-215 | the number of halvings is the least n with distance at most 2^n |
| `Anchors.Search` | src/rpc_state_indexer/core/anchors.py:203-215 | halving between a block before the boundary and one at or after it, in at most ceil(log2) reads, ends at an adjacent pair |
| `Anchors.Resolve` | src/rpc_state_indexer/core/anchors.py:181-238 | whatever the provider answers, a returned pair is adjacent, straddles the UTC boundary, is linked by parent hash, not above the safe tip and just confirmed, after at most 6 + ceil(log2(tip)) reads; on a served chain with nondecreasing timestamps it succeeds if and only if the day lies between genesis and the tip, and returns the highest block before the boundary |
| `SqlSplit.StripExact` | src/rpc_state_indexer/storage/migrations.py:158-161 | trimming removes blanks from both ends and leaves none there |
| `SqlSplit.SplitStatements` | src/rpc_state_indexer/storage/migrations.py:96-177 | the index loop computes the scan of the text |
| `SqlSplit.PieceScan` | src/rpc_state_indexer/storage/migrations.py:115-167 | scanning a quotation, comment or other piece keeps exactly what the piece keeps |
| `SqlSplit.SplitsIff` | src/rpc_state_indexer/storage/migrations.py:96-177 | a file splits into given statements if and only if it is the text of well-formed pieces that spell them, for all quotes, doubled quotes, escapes and comments; it fails otherwise |
| `SqlSplit.SplitUndoesJoin` | src/rpc_state_indexer/storage/migrations.py:96-177 | splitting the semicolon join of any statements returns them trimmed, with empty ones dropped |
| `SqlSplit.NothingElided` | src/rpc_state_indexer/storage/migrations.py:96-177 | without comments the text kept of a statement is its own text |

## Left out

- HTTP transport, rate gates, clocks, sleeps, metrics and the asyncio scheduler: replaced by functions of a call number.
- SHA-256 and keccak: uninterpreted functions; only the bytes given to them are modelled.
- ClickHouse SQL and the merging of table rows by key: tables are sequences or maps; `FINAL` reads and deduplication tokens are not modelled.
- Hexadecimal and JSON text forms of addresses, hashes and quantities, and the decimal text of call keys.
- Error-message classification by substring: a failure arrives classified.
- YAML loading, configuration validation and hashing, CLI, health server, daemon scheduling, catalog scripts, token metadata.
- Balancer pools and pool reserve collection: simpler variants of the collectors that are modelled.
- Endpoint records of failures and recoveries: eligibility at each call is given by the health function.
- Erc20.Collect: the allowance for a nonzero tolerance is an arbitrary function of the expected supply, because the program multiplies decimals that round to the context precision.
- AToken.Collect: the limit 2^256 is a parameter; the type checks of `rayMul` operands are not modelled.
- LegacyBatch.LegacyRpcBatchExecutor.ExecuteOnce: a failed check of the anchor hash around a number-pinned exchange counts as a broken exchange.
- MulticallTasks.Execute: endpoint selection yields any endpoint that the task has not excluded, which covers every state of the shared pool; the bound on parallel batches only removes schedules; delays are not modelled.
- Census.VisibleIff: the joins of the publication view with the configuration registry, the canonical anchors and the stored errors enter as one truth value.
- Census.CensusService.Run: the token, pool and CL paths are one method with the branches in which they differ; the universe is given; batch evidence enters as its verified flags; `LIMIT 1` on state rows is read as the first row; the two queries of a read-back are one store call that sees any part of the attempt's rows.
- CensusRuns.EveryInterleaving: the rows of an attempt go with the attempt, because every query filters by its id.
- ProvenCollection.CollectErc20: the execution is an input, although the program executes only after it has admitted the request.
- Sweep.SweepService.Advance: groups of wallets are processed in the order in which they are formed, not sorted by their gaps; repeated topic positions, which the configuration refuses, are taken once; the log counts of markers are not modelled.
- Discovery.DiscoveryService.ScanGap: log and holder counts of range rows, anchors and endpoint fingerprints of rows are not modelled.
- Universes.SetAlgebra: the members of holder and explicit-list selectors, with their aliases and seeds, are given.
- Anchors.Resolve: the list of endpoint fingerprints and the finality label are not modelled.
- WriterGuard.MutualExclusion: a long heartbeat outage is excluded by the freshness assumption, because the heartbeat loop checks staleness only when a write fails.
- Ticks.CollectionExact: the state round, the activity threshold and the fee-growth fields beyond decoding are not modelled.
- SqlSplit.SplitStatements: file discovery, placeholders, checksums and the migration ledger are not modelled.
