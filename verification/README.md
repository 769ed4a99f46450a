# A verified model of the EVM token indexer

The indexer reads token transfer logs from an EVM chain, keeps every movement in a ledger table,
maintains a balance index beside it, and drives all of that through a job queue with leases,
checkpoints, replays and reorg verification. This project models that behaviour in Dafny and
proves what it keeps. `dafny verify dfyconfig.toml` checks everything.

Every database transaction is one atomic step that commits or rolls back; steps of different
workers interleave arbitrarily. The tables are maps and sequences. Where the program changes rows
in place the model is a class with methods, each proved against a function of the old state; the
laws are then proved about those functions.

| file | what it holds |
|---|---|
| `LedgerModel.dfy`, `LedgerTheorems.dfy` | rows, balances, persist and orphan transactions; the fold they must equal; runs, replay, supply, in-order ingestion |
| `Batches.dfy` | decoded logs as rows, and what persisting a batch leaves, stated on its entries |
| `LedgerRepository.dfy` | the ledger repository as a class: delta map, balance posting, upsert, orphaning, checkpoint, frontier |
| `Checkpoints.dfy`, `Frontier.dfy` | the checkpoint as a join; the sort-then-sweep frontier |
| `JobQueue.dfy`, `JobRepository.dfy` | the job and attempt tables, their transactions, the audit invariant |
| `Protocol.dfy` | all workers, jobs, the ledger and the checkpoints as one state machine |
| `Execution.dfy` | the execution of one job as a program on the repository, which takes the protocol's steps |
| `Leases.dfy` | when a job can be leased again: call by call, over whole runs, after a crash |
| `CanonicalRuns.dfy` | which canonical rows a run leaves stored, active or orphaned |
| `Gaps.dfy`, `GapRuns.dfy` | when the stored checkpoint has caught up with the succeeded jobs, and two runs where it has not |
| `Worker.dfy` | the worker loop and its termination |
| `Evm.dfy`, `Numerals.dfy`, `LogTexts.dfy` | ABI decoding, the encoder it inverts, and what it reads and refuses character by character |
| `Ingest.dfy`, `Hybrids.dfy` | standard detection, chunked fetching with a prefetched chunk, decoding and persisting a range; a contract of two standards |
| `Requests.dfy` | range requests lose no decodable log; the rows of a range, stated on the emitted logs |
| `Backfill.dfy`, `Reorg.dfy` | range tiling and planning; coalescing of hash mismatches |
| `Cursors.dfy`, `Pagination.dfy` | cursor strings; keyset pages and walks over a changing ledger |
| `Views.dfy` | the page filters, and how what a reading shows adds up to balances and supply |
| `Domain.dfy`, `Sums.dfy`, `Wrappers.dfy` | shared identifiers and bounds; finite sums; Option, Result, Min, Max |

## What is not true of the program

Seven properties one might expect do not hold. Each has a concrete counterexample here, beside the
condition under which the program does meet it.

- Orphaning a range can abort although the ledger without that range is legal, because rows are
  reversed in ascending order: `OrphanCanAbort`, on a ledger that two persisted logs leave
  (`OrphanAbortReached`); with the two rows in the other order it commits (`OrphanPairExact`). It
  commits exactly when no single reversal overdraws a holder: `OrphanExact`.
- Attempts can exceed `max_attempts`, because leasing does not look at it: `MaximumCanBeExceeded`.
  A run stays within the maximum exactly when it leases no job whose attempts have reached it:
  `MaximumExact`. In any case reclaims and interruptions bound the excess: `AttemptsBounded`.
- Rows that share a (block, log, batch) position can be skipped by pagination: `TiesAreSkipped`.
  Every page size shows every selected row exactly when the selected rows have distinct positions:
  `TiesExact`.
- The standard that auto-detection finds, and whether it finds one, depends on the chunk size:
  `HybridDependsOnChunkSize`. It is found at every chunk size exactly when all logs of the range
  agree: `ChunkSizeIrrelevant`.
- A succeeded job need not stay succeeded, because a stale worker may mark it again:
  `SucceededCanReopen`. It stays exactly through the calls that are not such a mark:
  `SucceededStays`. Coverage is therefore stated over committed ingest transactions, not over
  succeeded jobs.
- A job that is not over need not become leasable with time: a stale worker may mark running a job
  that has no lease any more, and then nobody can ever lease it (`StrandedReached`). A call leaves a job so exactly when it is such a mark, or
  finds the job so and does not end it (`StrandedExact`); in every run every other open job is queued
  or can be leased at every time after its lease (`OpenLeasable`). If marks are timely no job is ever
  left so (`TimelyRunStrandsNone`), and a crash in any phase loses no job (`CrashRecovers`).
- A backfill whose jobs have all succeeded need not have moved the stored checkpoint to its end,
  and planning it again inserts nothing. Targets of two workers can overlap (`OverlapLeavesGap`), or
  a target can be newer than what its worker saw as final (`FinalityLeavesGap`). A step keeps the
  checkpoint level with the succeeded jobs exactly when it leaves no gap (`SettledExact`), and in
  every run whose targets are computed one worker at a time, and are final for that worker, the
  stored checkpoint has reached the end as soon as the last planned job succeeds
  (`SerialBackfillReaches`).

`docs/architecture.md` lines 62-67 list marking the job before advancing the checkpoint. The code
advances the checkpoint first (`src/worker/mod.rs` lines 427-449, then 226-236); the model follows
the code.

## Model

| member | source | states |
|---|---|---|
| LedgerModel.PostExact | src/infra/postgres/ledger_repository.rs:1185-1303 | On a consistent ledger, replacing one row posts exactly when the fold over active rows stays non-negative for every holder and token, and afterwards every balance equals that fold again, with an absent balance row meaning zero. |
| LedgerModel.PersistExact | src/infra/postgres/ledger_repository.rs:279-307 | A whole persist transaction commits exactly when every step is admissible and every intermediate fold is non-negative; then the rows are those of the upserts alone and the index is consistent. |
| Batches.BatchExact | src/infra/postgres/ledger_repository.rs:279-307 | Persisting a batch of distinct logs, on its decoded entries: it commits exactly when every entry has an address, no stored key is another source's and no balance is negative after any entry; then a new entry has its own row, an entry whose key is stored replaces amount and block columns only (restored or not, as asked), every other row is as it was, and every balance has moved by what the entries say. |
| Batches.FreshBatch | src/infra/postgres/ledger_repository.rs:1051-1119 | On an empty ledger exactly one row per entry is stored, under (chain, transaction, log, batch index), with the entry's addresses (the zero address as none), token and amount and its log's block; a holder has what the entries give less what they take. |
| LedgerTheorems.OrphanExact | src/infra/postgres/ledger_repository.rs:520-571 | An orphan transaction commits exactly when the range is valid and no single reversal, taken in the reversal order, makes a balance negative; then exactly the rows of the range are orphaned and the index is consistent. |
| LedgerTheorems.OrphanOrderIrrelevant | src/infra/postgres/ledger_repository.rs:528-541 | Rows in one position may be reversed in any order: two orders that both commit leave the same tables. |
| LedgerTheorems.OrderAscends | src/infra/postgres/ledger_repository.rs:528-537 | The reversal order never goes back: by block, then log index, then batch index. |
| LedgerTheorems.OrphanPairExact | src/infra/postgres/ledger_repository.rs:528-541 | A mint and a transfer of what it minted, orphaned together, abort if the mint comes first and commit if the transfer does, be it by block, log index or batch index. |
| LedgerTheorems.OrphanCanAbort | src/infra/postgres/ledger_repository.rs:528-541 | Counterexample: a mint at block 100 and a transfer at block 101, orphaned together, abort although the remaining ledger is legal. |
| LedgerTheorems.OrphanAbortReached | src/infra/postgres/ledger_repository.rs:279-307 | That ledger and its reversal order are real: persisting the two logs on an empty database commits and leaves exactly it, and then the orphaning aborts. |
| LedgerTheorems.EveryRunConsistent | src/infra/postgres/ledger_repository.rs:279-568 | After any sequence of persists and orphanings, committed or aborted, every balance equals the fold over active rows, none is negative and absence means zero. |
| LedgerTheorems.RefreshKeepsConsistent | src/infra/postgres/ledger_repository.rs:591-647 | The metadata backfill, which rewrites block and block columns of the rows of a log, leaves every balance equal to the fold. |
| LedgerTheorems.PersistStepMarked | src/infra/postgres/ledger_repository.rs:1244-1300 | Posting only widens the first-received and last-moved block marks, and an active row's block is enclosed by the marks of the holders it moves. |
| LedgerTheorems.EveryRunMarked | src/infra/postgres/ledger_repository.rs:1232-1303 | In every run of persists and orphanings each block mark of a balance row is the block of some stored row of that source and token that pays (or pays or charges) that holder. |
| LedgerTheorems.SupplyConserved | src/infra/postgres/ledger_repository.rs:1609-1643 | For every token the balances of all holders add up to active mints minus active burns; transfers and self-transfers are net zero. |
| LedgerTheorems.ReplayedExact | src/infra/postgres/ledger_repository.rs:1094-1119 | After one replay the active rows of the range are exactly the canonical rows, and every total is that of the rows outside the range plus the canonical movements. |
| LedgerTheorems.ReplayInvariant | src/worker/mod.rs:375-409 | No committed or aborted transaction of a replay's attempts changes where a completed replay ends, and a cleared range stays cleared but for canonical rows. |
| LedgerTheorems.ReplayConverges | src/worker/mod.rs:375-409 | After any number of attempts that died between orphan and persist, a final persist leaves the same rows as one uninterrupted replay and balances equal to the outside fold plus the canonical logs. |
| LedgerTheorems.ReplayConvergesAmid | src/worker/mod.rs:375-409 | The same amid other writers: between the attempts there may be orphanings of any range and persists of canonical rows or of rows elsewhere. The active rows of the range end as the canonical ones, the rest is as the last persist found it, and balances are the fold of the rest plus the canonical logs. |
| LedgerTheorems.InOrderComplete | src/infra/postgres/ledger_repository.rs:284-307 | Persisting a history with distinct keys from an empty ledger commits exactly when no prefix overdraws a holder, and then the balances are those of the history. |
| LedgerTheorems.ChunkingIrrelevant | src/infra/postgres/ledger_repository.rs:284-307 | Every split of a history into consecutive transactions commits exactly when one transaction would and reaches the same tables. |
| LedgerTheorems.RepersistIdempotent | src/infra/postgres/ledger_repository.rs:1094-1119 | Persisting a committed batch with distinct keys again commits and changes no row and no balance. |
| LedgerRepositories.LedgerRepository.CollectBalanceDelta | src/infra/postgres/ledger_repository.rs:1609-1643 | Adding a row, or its reversal, to the delta map changes exactly the slots the row touches, each by the row's flow; a self-transfer nets to zero. |
| LedgerRepositories.LedgerRepository.ApplyHolderBalanceDelta | src/infra/postgres/ledger_repository.rs:1232-1303 | One slot: refuses a negative result, creates no zero row, otherwise updates balance and marks; nothing else changes. |
| LedgerRepositories.LedgerRepository.PostDeltas | src/infra/postgres/ledger_repository.rs:1203-1215 | Posting the slots of the delta map in any order succeeds exactly when no slot goes negative and gives the map posted at once. |
| LedgerRepositories.LedgerRepository.ApplyBalanceDelta | src/infra/postgres/ledger_repository.rs:1185-1216 | Reversal of the previous row plus the current row, posted: agrees with the function that PostExact relates to the fold. |
| LedgerRepositories.LedgerRepository.UpsertLedgerEntry | src/infra/postgres/ledger_repository.rs:1094-1119 | Inserts, or refreshes only amount and metadata; un-orphans only on request. |
| LedgerRepositories.LedgerRepository.PersistEntry | src/infra/postgres/ledger_repository.rs:288-304 | One entry succeeds exactly when the transaction step of PersistExact does, and then has its effect. |
| LedgerRepositories.LedgerRepository.PersistDecodedLogs | src/infra/postgres/ledger_repository.rs:266-327 | The batch commits exactly when the transaction of PersistExact does, with its result; on distinct logs the commit condition and the rows and balances left are stated on the decoded entries (and on an empty ledger exactly one row per entry); otherwise nothing changed; consistency is kept. |
| LedgerRepositories.LedgerRepository.SelectRange | src/infra/postgres/ledger_repository.rs:528-537 | Selects every active row of the range once, ascending by (block, log, batch). |
| LedgerRepositories.LedgerRepository.ReverseRows | src/infra/postgres/ledger_repository.rs:538-541 | Reverses the rows one by one and stops at the first that would overdraw. |
| LedgerRepositories.LedgerRepository.OrphanSourceRange | src/infra/postgres/ledger_repository.rs:506-571 | Commits exactly when the transaction of OrphanExact does, with its result and row count; exactly the rows of the source in the range are orphaned and otherwise unchanged; an abort changes nothing; consistency is kept. |
| LedgerRepositories.LedgerRepository.AdvanceCheckpoint | src/infra/postgres/ledger_repository.rs:656-731 | The stored row becomes the result of the transition that AdvanceIsJoin describes; an error leaves it. |
| Checkpoints.AdvanceMonotone | src/infra/postgres/ledger_repository.rs:683-728 | Both marks only grow, the table CHECKs hold, and the hash belongs to the surviving processed block. |
| Checkpoints.AdvanceAccepts | src/infra/postgres/ledger_repository.rs:663-702 | A call fails exactly when its blocks are invalid or it names the stored processed block under another hash. |
| Checkpoints.OneHashPerBlock | src/infra/postgres/ledger_repository.rs:695-702 | Two different hashes for the processed block never both succeed, whatever calls come between. |
| Checkpoints.AdvanceIsJoin | src/infra/postgres/ledger_repository.rs:663-731 | Valid calls in any number never fail and end at the maximum processed block with that block's own hash and the maximum finalized block. |
| Checkpoints.AdvanceOrderIrrelevant | src/infra/postgres/ledger_repository.rs:663-731 | Any two orders of the same calls end at the same checkpoint. |
| Frontier.SortRanges | src/infra/postgres/ledger_repository.rs:771-774 | Sorts the ranges: a permutation of the input in order. |
| Frontier.Sweep | src/infra/postgres/ledger_repository.rs:776-788 | For overlapping, duplicated or gapped ranges, up to the saturating end of the column type: everything up to the target is covered and the next block is not. |
| Frontier.TargetIsGreatest | src/infra/postgres/ledger_repository.rs:776-788 | No later block is reached by a gap-free cover. |
| LedgerRepositories.NextTargetIsGreatest | src/infra/postgres/ledger_repository.rs:734-790 | The checkpoint target is the greatest block reached without a gap by succeeded ingest jobs and the range just completed. |
| LedgerRepositories.LedgerRepository.NextContiguousCheckpointTarget | src/infra/postgres/ledger_repository.rs:734-790 | Without a checkpoint every block from the start block to the answer is held by a succeeded ingest job or the range just completed, and the next is not; with one, every block after its processed block; None exactly when not even the first of these is. Fails exactly on an invalid completed range. |
| LedgerRepositories.LedgerRepository.SucceededRanges | src/infra/postgres/ledger_repository.rs:756-770 | Reads exactly the ranges of succeeded ingest jobs of the source that end after the frontier. |
| JobQueue.CallKeepsAudit | src/infra/postgres/job_repository.rs:174-373 | Every queue transaction keeps: attempts of a job are numbered 1..attempts, all but the last are closed and never change again, the last matches the job status, and finished_at is set iff closed. |
| JobQueue.EveryRunAudited | src/infra/postgres/job_repository.rs:174-373 | The same after every interleaving of calls, stale workers included. |
| JobQueue.TrailExact | src/infra/postgres/job_repository.rs:174-373 | In every run a job with n attempts has exactly the attempt rows 1..n, once each; a row has an end time exactly when it is not leased or running; all but the last are closed and the last shows what became of the job. |
| JobQueue.CallWrites | src/infra/postgres/job_repository.rs:542-580 | What each transaction writes into the last attempt row and the job's error, and that a lease closes the attempt of an expired lease and no other. |
| JobQueue.EveryLeaseNamed | src/infra/postgres/job_repository.rs:206-216 | In every run a job carries a lease only while it is leased or running, and the lease names the worker of its last attempt. |
| JobQueue.EveryRunUnique | src/infra/postgres/job_repository.rs:106-149 | In every run no two jobs have one idempotency key, and no two have one source, type and range. |
| JobQueue.AttemptsBounded | src/infra/postgres/job_repository.rs:206-216 | In every run attempts stay within max_attempts plus expired reclaims plus interruptions. |
| JobQueue.MaximumCanBeExceeded | src/infra/postgres/job_repository.rs:454-540 | Counterexample: a reclaimed last attempt exceeds max_attempts. |
| JobQueue.MaximumKept | src/infra/postgres/job_repository.rs:174-373 | One call keeps a job within max_attempts exactly when it is no lease of that job at its maximum. |
| JobQueue.MaximumExact | src/infra/postgres/job_repository.rs:174-373 | A run ends with the job within max_attempts exactly when no lease of it was made after its attempts had reached the maximum. |
| JobQueue.SucceededStays | src/infra/postgres/job_repository.rs:232-373 | A succeeded job stays succeeded through a call exactly when the call is no running or failed mark of that job: marks check neither owner nor status. |
| JobQueue.SucceededForGood | src/infra/postgres/job_repository.rs:232-373 | Over a whole run without such marks it stays succeeded. |
| JobQueue.SucceededCanReopen | src/infra/postgres/job_repository.rs:315-373 | Counterexample: a worker whose lease expired marks failed what a second worker completed, and the job is queued again. |
| Leases.LeasableExact | src/infra/postgres/job_repository.rs:454-486 | After each transaction, exactly when its job can be leased: new, interrupted and failed below the maximum at once; leased or running after the lease has ended, if there is one; succeeded or failed at the maximum never. |
| Leases.StrandedExact | src/infra/postgres/job_repository.rs:273-287 | One transaction leaves a job in flight without a lease exactly when it is a running mark of a job without one, or finds it so and is no succeeded, failed or interrupted mark of it. |
| Leases.OpenLeasable | src/infra/postgres/job_repository.rs:472-485 | In every run, stale workers included, an open job is queued and can be leased at any time, or carries a lease end and can be leased at every time after it, exactly unless such a mark left it without one. |
| Leases.StrandedReached | src/infra/postgres/job_repository.rs:273-287 | Counterexample: a worker whose lease expired marks running what another has completed, and nobody can ever lease the job again. |
| Leases.TimelyRunStrandsNone | src/infra/postgres/job_repository.rs:273-287 | If marks are made before the worker's own lease expires, no job is ever in that state. |
| Leases.OpenRecovers | src/infra/postgres/job_repository.rs:454-540 | In every such run every open job can be leased by a free worker once the clock has passed its lease. |
| Leases.CrashRecovers | src/infra/postgres/job_repository.rs:472-485 | A worker that crashes in any phase while its lease lasts leaves a job that every free worker can lease as soon as the clock has passed that lease. |
| JobRepositories.JobRepository.Enqueue | src/infra/postgres/job_repository.rs:106-149 | Inserts exactly when no job has the key or the (source, type, range); otherwise returns such a job and changes nothing. |
| JobRepositories.JobRepository.LockNextCandidate | src/infra/postgres/job_repository.rs:454-540 | Returns an oldest unlocked job of the type and chain asked for that is queued, or leased or running under a lease that has ended; None exactly when there is none. |
| JobRepositories.JobRepository.UpdateAttemptStatus | src/infra/postgres/job_repository.rs:542-565 | Updates exactly the attempt rows of that job and number. |
| JobRepositories.JobRepository.LeaseNext | src/infra/postgres/job_repository.rs:174-230 | Leases an oldest such job with the effect of the audited lease transaction, closing an expired attempt; None exactly when there is none. |
| JobRepositories.JobRepository.MarkRunning | src/infra/postgres/job_repository.rs:273-287 | The audited transaction; fails only on a missing job. |
| JobRepositories.JobRepository.MarkSucceeded | src/infra/postgres/job_repository.rs:289-313 | The audited transaction, without a check of owner or status. |
| JobRepositories.JobRepository.MarkFailed | src/infra/postgres/job_repository.rs:315-373 | The audited transaction: dead-lettered at the maximum, queued again below it. |
| JobRepositories.JobRepository.MarkInterruptedForRetry | src/infra/postgres/job_repository.rs:232-271 | The audited transaction: an in-flight job is queued again, any other is left alone. |
| Protocol.StepKeepsInvariant | src/worker/mod.rs:324-459 | Every step of every worker keeps the joint invariant of queue, ledger, checkpoints and worker positions. |
| Protocol.EveryRunInvariant | src/worker/mod.rs:324-459 | It holds in every reachable state, with crashes, lease expiries, stale workers and replays. |
| Protocol.TargetIngested | src/worker/mod.rs:427-436 | Whatever target a worker computes, every block up to it from the start block lies in a committed ingest range. |
| Protocol.CheckpointSafety | src/worker/mod.rs:375-456 | In every run every block from the start block to processed_block lies in a committed ingest range with the keys of its canonical rows stored, processed_block is at most finalized_block, and balances equal their fold. |
| Protocol.OnlyFinalBlocks | src/worker/mod.rs:358-364 | In every run a block is orphaned or persisted only by a worker that has seen it as final. |
| Protocol.ReplayOrphansFirst | src/worker/mod.rs:375-409 | In every run a replay persists its range only when its own last step was to orphan it. |
| Executions.ComputeTarget | src/worker/mod.rs:427-432 | The target that the repository computes is one the protocol's target step may take in the mirrored state, so every block up to it lies in a committed ingest. |
| Executions.PersistRange | src/worker/mod.rs:393-425 | Fetching, decoding and persisting the range of a job is the protocol's persist step, or fails and changes nothing. |
| Executions.OrphanRange | src/worker/mod.rs:375-392 | Reversing the range of a replay is the protocol's orphan step, or fails and changes nothing. |
| Executions.AdvanceRange | src/worker/mod.rs:427-456 | The end of an ingest job takes the target step, and the advance step exactly when the target is final. |
| Executions.ExecuteJob | src/worker/mod.rs:324-459 | Executing a job, uninterrupted, takes steps of the protocol, and after every exit the repository holds exactly the protocol's ledger and checkpoints; a checkpoint that moved carries the hash the chain gives for its block; on success the worker may mark the job succeeded, on failure it may give up. A job of another type or chain, of an unknown source, or whose range is not final, fails with no effect. So what is proved of every run holds of the program. |
| CanonicalRuns.StateExact | src/worker/mod.rs:375-425 | In every run the canonical rows of a block are all absent, all active or all orphaned, as the persists and orphanings of the block so far determine: an orphaning orphans, and only the persist of a replay restores. |
| CanonicalRuns.OnlyCanonical | src/worker/mod.rs:375-425 | Nothing but canonical rows is ever stored. |
| CanonicalRuns.CheckpointedRows | src/worker/mod.rs:375-456 | Up to the checkpoint every canonical row is stored as it is canonical, and is orphaned exactly when a replay orphaned its block and no replay has persisted it since. |
| Protocol.CheckpointMoves | src/worker/mod.rs:427-456 | Checkpoints only grow, only in the advance step of an ingest job of that source, never for a replay. |
| Protocol.LeaseExclusive | src/infra/postgres/job_repository.rs:174-230 | If marks are made before the worker's own lease expires, no two workers hold one job at once. |
| Protocol.MarksOwnAttempt | src/infra/postgres/job_repository.rs:273-373 | Under the same condition every mark writes only the attempt row of the worker recorded on it. |
| Workers.ExecutionProgress | src/worker/mod.rs:221-259 | Whatever its outcome, one execution of a job by a lone worker uses up work. |
| Workers.IngestWorker.LeaseAndMarkRunning | src/worker/mod.rs:167-199 | With replays preferred, takes a free replay job if there is one, otherwise a free ingest job, otherwise none; without the preference the other way round; every query and mark reads the clock for itself. |
| Workers.IngestWorker.RunOnce | src/worker/mod.rs:137-165 | One pass takes a job by that preference, runs it and marks it, each at its own time, with the preference updated (a success restores it for replays, a failed replay gives it up, a failed ingest changes nothing), work used up and the audit kept. |
| Workers.IngestWorker.RunUntilIdle | src/worker/mod.rs:282-322 | Ends for every clock and every sequence of results; counts successes and failures; stops idle only when nothing is eligible, or at the job limit. |
| Evm.ArrayExact | src/application/evm.rs:354-372 | On arbitrary words the dynamic array decoder succeeds exactly when an aligned, in-bounds array of numbers stands at the offset, and yields exactly it. |
| Evm.BatchExact | src/application/evm.rs:260-303 | On arbitrary data batch decoding succeeds exactly when two stated arrays of one length stand beside three address topics, and yields their pairs in order. |
| Evm.BatchRoundTrip | src/application/evm.rs:260-303 | Decoding inverts the ABI encoding of two uint256 lists: it succeeds exactly when the lengths agree and the second offset fits the machine word, and gives the same pairs with batch indexes 0..n-1. |
| Evm.SingleRoundTrip | src/application/evm.rs:240-258 | Decoding inverts the ABI encoding of TransferSingle, under the configured and the detected standard. |
| Evm.Erc20RoundTrip | src/application/evm.rs:200-238 | Decoding inverts the ABI encoding of an ERC-20 Transfer; detection agrees and ERC-721 decoding refuses it. |
| Evm.Erc721RoundTrip | src/application/evm.rs:200-238 | Decoding inverts the ABI encoding of an ERC-721 Transfer; detection agrees and ERC-20 decoding refuses it. |
| Evm.AddressRoundTrip | src/application/evm.rs:316-322 | A normalised address comes back from its 32-byte topic. |
| LogTexts.DataExact | src/application/evm.rs:334-352 | Event data holds n words exactly when it is a prefix 0x and 64 n characters more. |
| LogTexts.DataWordsExact | src/application/evm.rs:334-344 | Every word of event data is read in its place. |
| LogTexts.TopicExact | src/application/evm.rs:316-322 | A topic is an address exactly when it is 32 bytes with a prefix; the address is its last 20 bytes in lower case. |
| LogTexts.CaseIrrelevant | src/application/evm.rs:381-389 | Hexadecimal digits may be written in either case. |
| LogTexts.Separators | src/application/evm.rs:381-389 | The numeral parser skips one plus sign in front and underscores after the first digit, and refuses an underscore in front and an empty numeral. |
| LogTexts.AutoExact | src/application/evm.rs:106-188 | Auto-detection decodes a Transfer log exactly when ERC-20 or ERC-721 does and an ERC-1155 log exactly when ERC-1155 does, and reads no other log. |
| Ingests.DetectTokenStandardFromLogs | src/application/ingest.rs:302-323 | None exactly when no log shows a standard, a standard exactly when some log shows it and none another, an error otherwise. |
| Ingests.DetectTokenStandardWithPrefetchedLogs | src/application/ingest.rs:240-300 | The first chunk of the range with any log decides; its logs are handed on as the prefetched chunk. |
| Ingests.PrefetchedIsGenuine | src/application/ingest.rs:270-278 | The prefetched chunk is what a request for the detected standard would return. |
| Ingests.FetchLogsInChunks | src/application/ingest.rs:325-382 | With a genuine prefetched chunk the result is that of one request for the whole range; the chunks tile the range, up to the last 64-bit block. |
| Ingests.RequestedExact | src/application/ingest.rs:350-362 | The prefetched chunk is used exactly once: every other chunk of the range is requested once, in order. |
| Ingests.ChunkInTiling | src/application/ingest.rs:255-278 | The chunk that detection hands on is a chunk of every tiling of the range with that size, at the same place. |
| Ingests.ChunkSizeIrrelevant | src/application/ingest.rs:255-294 | Auto-detection finds a standard at every chunk size exactly when all logs of the range agree on it. |
| Hybrids.HybridDependsOnChunkSize | src/application/ingest.rs:80-155 | Counterexample: a contract with one well-formed ERC-20 log and one well-formed ERC-1155 log is ingested with chunks of one block, one row committed, and refused with chunks of two. |
| Ingests.DecodeLogs | src/application/ingest.rs:131-138 | Decodes log by log, skips what is no event, and fails on the first undecodable log. |
| Requests.RequestedIsRead | src/application/evm.rs:79-139 | A log is in the request for a standard exactly when the decoder of that standard reads it, even if only to reject it. |
| Requests.RequestComplete | src/application/ingest.rs:116-138 | For every standard, decoding what a range request returns equals decoding all logs that the contract emitted in the range: no decodable log is lost. |
| Requests.RangeItemsExact | src/application/ingest.rs:131-138 | A range decodes exactly when every log emitted in it does, and its rows are exactly those that the decoded parts of these logs ask for, field by field. |
| Requests.ZeroTopic | src/infra/postgres/ledger_repository.rs:1722-1725 | The address that mints and burns leave out is the one a topic of zeros holds. |
| Ingests.IngestSourceRange | src/application/ingest.rs:80-155 | Whatever the chunk size and whatever genuine chunk was prefetched: commits exactly when the rows of the whole range under the resolved standard decode and persist, with that effect; otherwise nothing changed. |
| Requests.IngestedExactly | src/application/ingest.rs:80-155 | Ingesting a range into an empty ledger stores a row exactly when an entry of a log emitted in the range asks for it. |
| Ingests.JobSizeIrrelevant | src/application/backfill.rs:115-139 | Ingest jobs of any size that tile a range, run in order, decode and commit exactly when one job would and leave the same ledger. |
| Ingests.CanonicalRows | src/application/ingest.rs:116-138 | The canonical rows of the protocol model are what ingestion fetches and decodes. |
| Backfill.SplitInclusiveRange | src/application/backfill.rs:115-139 | Ordered, gap-free, disjoint chunks of at most range_size that cover the range, (to - from) / range_size + 1 of them, ending even at the last 64-bit block. |
| Backfill.TilingCovers | src/application/backfill.rs:115-139 | Every block of the range lies in exactly one chunk. |
| Backfill.TilingUnique | src/application/backfill.rs:115-139 | The tiling of a range is unique, so planning is deterministic. |
| Backfill.PlanBackfillJobs | src/application/backfill.rs:36-113 | Plans exactly the requested blocks above the checkpoint, tiled from the first of them; enqueues each chunk once, as a queued job never leased; counts inserted and existing, keeps every other job, and refuses bad requests without effect. |
| Backfill.Replan | src/application/backfill.rs:36-113 | Planning the same request again with an unchanged checkpoint inserts nothing. |
| Backfill.BackfillClosesGap | src/infra/postgres/ledger_repository.rs:756-788 | Whenever a target is computed after every planned chunk has succeeded, but for the one the caller has just completed, and wherever the frontier has moved since planning, the target reaches the end of the request. |
| Gaps.SettledExact | src/worker/mod.rs:427-456 | One step keeps the stored checkpoint level with the succeeded jobs exactly when it is no success of the block after the frontier and no advance to a target that others have covered beyond. |
| Gaps.SerialRunSettles | src/worker/mod.rs:427-456 | In every run whose targets are computed one worker at a time, and are final for it, the stored checkpoint is level with the succeeded jobs in every state. |
| Gaps.SerialBackfillReaches | src/worker/mod.rs:427-456 | In every such run, as soon as every planned job has succeeded, the stored checkpoint has reached the end of the request. |
| GapRuns.OverlapLeavesGap | src/worker/mod.rs:427-456 | Counterexample, as a run from the initial state: two overlapping targets leave every planned job succeeded, nobody working, nothing to replan, and the checkpoint behind. |
| GapRuns.FinalityLeavesGap | src/worker/mod.rs:427-435 | Counterexample: so does a target newer than the finalized block its worker observed. |
| Reorg.ReorgRepository.VerifySourceReorgs | src/application/reorg.rs:25-80 | Checks every stored hash of the range and the checkpoint's own if it lies there: the recorded events cover a block exactly when one of these differs from the canonical hash. A failing fetch records nothing, and a refused insert leaves the groups before it recorded and reports an error. |
| Reorg.ReorgRepository.RecordReorgRanges | src/application/reorg.rs:82-137 | The recorded ranges concatenate to the mismatch list, are consecutive, and none could absorb the next one's first block; if the database refuses one, those before it stay recorded. |
| Reorg.RangesCover | src/application/reorg.rs:82-104 | A block lies in a recorded range exactly when it is a mismatch. |
| Reorg.RangesExact | src/application/reorg.rs:38-80 | A block lies in a recorded range exactly when its stored or checkpointed hash differs from the canonical one. |
| Reorg.OneHashIncreases | src/application/reorg.rs:38-72 | With one stored hash per block the mismatch list is strictly increasing. |
| Reorg.EventMeans | src/application/reorg.rs:106-137 | A recorded event is a run of consecutive mismatches named by its ends, with the two hashes of its first block. |
| Reorg.RangesApart | src/application/reorg.rs:82-104 | With strictly increasing mismatches the recorded ranges are disjoint and not adjacent. |
| Numerals.PrintRoundTrip | src/application/evm.rs:374-389 | Printing a number in a base and reading it back gives the number. |
| Numerals.PrintDecimal | src/application/evm.rs:381-389 | A number prints in the usual decimal notation, without leading zeros. |
| Cursors.CursorRoundTrip | src/api/mod.rs:270-302 | A printed cursor parses back to itself exactly when its parts fit their columns. |
| Views.CursorText | src/api/mod.rs:270-302 | A cursor is three decimal numbers, block first, then log index, then batch index, and such a text parses exactly when they fit their columns. |
| Cursors.SignedText | src/api/mod.rs:270-289 | A component is digits after at most one sign, within its column type. |
| Cursors.ThreeParts | src/api/mod.rs:270-295 | A cursor has exactly three parts, each an integer that fits its column. |
| Pagination.LedgerPage | src/infra/postgres/ledger_repository.rs:1452-1539 | A page is the first rows of the filtered selection in order, at most the clamped limit, with the last position as cursor exactly when more rows follow. |
| Pagination.WalkOrdered | src/infra/postgres/ledger_repository.rs:1485-1539 | Everything a walk shows is in strict lexicographic order, ascending or descending, after its cursor, if selected rows have distinct positions or pages hold one row. |
| Pagination.WalkExact | src/infra/postgres/ledger_repository.rs:1485-1539 | While the ledger changes between requests, every matching row that stays active is shown exactly once, at its place. |
| Pagination.FollowCursors | src/infra/postgres/ledger_repository.rs:1485-1539 | Following the cursors over an unchanging ledger always comes to an end, ties or not. |
| Pagination.WalkTerminates | src/infra/postgres/ledger_repository.rs:1485-1539 | With distinct positions all pages but the last are full, so a walk has at most one page more than the selection fills, and shows no more than the selection. |
| Pagination.TiesAreSkipped | src/infra/postgres/ledger_repository.rs:1485-1539 | Counterexample: of two rows in one position no walk with pages of one row shows both. |
| Pagination.TiesExact | src/infra/postgres/ledger_repository.rs:1485-1539 | On one ledger every walk of every page size shows every selected row exactly when the selected rows have distinct positions. |
| Views.ReadingExact | src/infra/postgres/ledger_repository.rs:1459-1484 | A complete reading shows exactly the active rows of the source that pass every filter (holder on either side, token, movement, block range), each once. |
| Views.ReadingAscends | src/infra/postgres/ledger_repository.rs:1513-1523 | Rows come by block, then log index, then batch index, all ascending or all descending. |
| Views.PageSize | src/infra/postgres/ledger_repository.rs:1525-1536 | A page shows at most a hundred rows and at most as many as asked for, and has a successor only if it is full. |
| Views.NextCursorNamesLast | src/infra/postgres/ledger_repository.rs:1530-1534 | The next cursor is the text of the block, log index and batch index of the last row shown. |
| Views.HolderReading | src/infra/postgres/ledger_repository.rs:1470-1480 | Over a consistent ledger, what a reading for a holder and a token shows coming in less going out is the holder's balance, on any page size and in either order. |
| Views.SupplyReading | src/infra/postgres/ledger_repository.rs:1481-1484 | Reading the mints and the burns of a token gives its supply, which is what all holders have together. |
| Views.MovementsPartition | src/infra/postgres/ledger_repository.rs:1481-1484 | The three movement filters split what the query selects without one. |
| Views.BlocksPartition | src/infra/postgres/ledger_repository.rs:1464-1469 | Adjacent block ranges split the range they make up. |

## Left out

- The events table, raw arguments, receipts, minter and holder queries: no effect on rows, balances or checkpoints.
- LedgerTheorems.EveryRunMarked: for runs without the metadata backfill, which can move stored rows to another block and leaves the block marks of balances as they were.
- Pagination.WalkExact: requires distinct, fitting positions of the selected rows, which the schema does not enforce, and a row that stays in place, which the metadata backfill can move; TiesExact says exactly when rows are skipped on one ledger.
- Executions.ExecuteJob: one worker's transactions in a row, with nobody else's in between; interleavings are the protocol's runs. It requires that the canonical rows of the job's range are those its logs decode to.
- HTTP JSON-RPC, Axum routes, CLI, doctor, metrics, tracing, migrations and SQL text. The chain is a function from blocks to logs and from blocks to hashes; an RPC that fails in the middle is a worker that gives up its job.
- Keccak: event signatures are an enumeration of the three supported topics and one other.
- Hex strings of log fields other than topics and data, and lower-casing of addresses and hashes: assumed normalised. Strings are sequences of characters, so the byte splitting of non-ASCII data is not modelled.
- NUMERIC(78,0) overflow and the casts of log index and block number to column types, except where a range must fit 64 bits (tiling, frontier, cursors).
- Row locks: `SKIP LOCKED` is a set of locked jobs, writers of one source are atomic steps. A unique violation between two concurrent inserts is not modelled.
- The order in which the slots of a delta map are posted, and the order of rows in one position, are arbitrary.
- Shutdown inside `run_once_until_shutdown` is the interrupt step of the protocol, not part of the worker class, whose execution result and clock are parameters.
- Error messages and error classes other than those stored on attempts: an error is one value.
- `ensure_source` may change the start block; it is fixed for a run.
- `resolve_finalized_range` and contract code checks: the protocol validates a job only by its observed finalized block.
- Protocol.LeaseExclusive: requires timely marks, because the repository checks neither owner nor lease when it marks.
- LedgerTheorems.ReplayConverges: requires that a canonical log with a stored key agrees with that row on from, to, token and block, because a conflicting upsert never changes those; ReplayConvergesAmid requires the same.
- CanonicalRuns.StateExact: requires that no two canonical rows share a key and that each names its own source and block.
- Gaps.SerialBackfillReaches: one-way over whole runs, because a later worker may close a gap that an earlier step left; SettledExact is exact for each step.
- Numerals.PrintRoundTrip: the big-integer parser and printer are modelled digit by digit, not by their library's limbs.
