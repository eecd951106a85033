# Forensic listener: a verified model

The forensic listener follows an Ethereum node, keeps blocks, transactions, token transfers,
accounts and enrichment jobs in PostgreSQL, projects the transfers into Neo4j, embeds contract
bytecode, looks for circular flows, and serves a dashboard. This project models the parts of it
that hold state or do real computation, in Dafny, and proves what they are meant to guarantee.

Check everything with `dafny verify dfyconfig.toml`.

## How the model is laid out

| file | models |
|---|---|
| Prelude.dfy, Schema.dfy | options and results, time in microseconds, the tables as maps keyed by their primary keys |
| Ledger.dfy | every write statement of the PostgreSQL store as a function from tables to tables or to the constraint that aborts it; `Step` is one committed or rolled-back transaction, `IsRun` any interleaving of them |
| PostgresStore.dfy | the store as a class whose methods change the tables in place, loop over slices and retry, each proved against the functions of Ledger |
| LedgerInvariant.dfy, Commit.dfy | the row invariant of all tables; exactly when a write commits |
| AccountRows.dfy, SavedRows.dfy, SavedTables.dfy | every row of every table after a committed write, from what was written alone |
| Reorg.dfy, TransferTable.dfy | the incrementally maintained tables against a rebuild from the chain |
| MovedDown.dfy, FlipBack.dfy, LostRequeue.dfy | concrete runs that fail: a lost transfer, a transaction not given back, a lost re-queue |
| JobLifecycle.dfy, Outbox.dfy, Delivery.dfy, WorkerLoop.dfy | the job machine over whole runs; the outbox with concurrent workers as one system; that system together with the graph it feeds; the worker's loop inside it |
| Locking.dfy | row locks as interleaved writers; deadlock freedom and exactly where it ends |
| Blocks.dfy, Enrichment.dfy | the head loop with its uint64 arithmetic, block gathering, the enrichment worker |
| Projection.dfy, GraphMerge.dfy, GraphRepair.dfy, Circular.dfy | MERGE-based projection, merging and repairing duplicate nodes, return paths and loops |
| Rollup.dfy | the hourly rollup as a cache of the raw table |
| Bytecode.dfy, Embedding.dfy | instruction walk, trailer stripping, feature hashing, vectors over exact reals |
| Hops.dfy, Snapshot.dfy, Limiter.dfy, Amount.dfy | breadth-first distances, the snapshot stream, the rate limiter, the wei printer |

Time is a parameter of every step. A database statement is one atomic step that either commits or
leaves the tables as they were. Outside the graph repair, addresses and hashes are already normalised
strings; the empty string is an absent address, as in the Go structs.

## Where the code falls short of its promises

The model follows the code. Each of these is a lemma of the project, with the exact condition.

- `store/postgres.go:87-89` says ordered account locking means two writers can no longer deadlock.
  That holds for writers that upsert one batch. A block with created contracts upserts a second
  batch, and a block and pending transactions can deadlock on account rows if and only if a new
  created contract sorts before a participant (`Locking.BlockDeadlocksIff`); `withTx` retries it.
- `ingestion/blocks.go:33` bounds the backfill by a uint64 subtraction. When a gap is found at a
  head below 31 it wraps and nothing at all is fetched for that head, its own block included
  (`Blocks.OwnBlockSaved`).
- `ingestion/blocks.go:37-57` moves on to the next head after a failed fetch. What that head had not
  saved by then is not asked for again by ascending heads (`Blocks.FailureStays`).
- `store/postgres.go:383-392` inserts transfers with DO NOTHING. A reorganisation that moves a
  transaction to a lower height loses its transfer rows (`MovedDown.OnlyTransfersFallBehind`); over
  any run they are complete if and only if no transfer found its key stored at another height
  (`TransferTable.TransfersFollowEveryRun`).
- `store/postgres.go:188-195` skips a block stored under the same hash. When a branch flips back to
  it, the transactions the other branch took are not restored (`Reorg.FlipBackNotRepaired`).
  `FlipBack.FlipBackReached` is such a run from empty tables: four deliveries that commit, after which
  a transaction of the chain is mined nowhere.
- `ingestion/blocks.go:83-87` skips a transaction whose sender cannot be recovered. If it emitted a
  transfer the block still names it, and the block commits only if the row is known already
  (`Blocks.GatheredTransfersBelong` with `Commit.SaveBlockCommits`).
- `ingestion/enrichment.go:57-58` calls a retried job harmless. It is, if and only if no worker marks
  a job done whose hash was re-queued after that worker's claim and claimed again by another, before
  anybody has enriched the hash since (`Outbox.OutboxExact`); `LostRequeue.LostRequeueReached` is a
  failing run from empty tables.
- `store/postgres.go:485-486` announces a back-off that starts at 5 s. A claim counts its attempt first, so a
  job that fails for the first time waits 10 s (`JobLifecycle.AtMostSixClaims`).
- `store/neo4j.go:545-547` ends the repair when a query lists no group to repair. The query counts nodes
  whose address is blank once trimmed, and these are skipped afterwards, so a batch filled with them
  hides the groups listed after them (`GraphRepair.Neo4jGraph.RepairDuplicateAccounts`,
  `GraphRepair.BlankHides`).
- `store/neo4j.go:690-712` groups nodes by the string they store. Different spellings of one address are
  merged only once each has become the normalised one, and a spelling that one node stores never does.
  While the blank groups leave room in a batch, a repair without an error leaves at most one node for an
  address if and only if it had at most one to begin with or no other spelling of it was stored just
  once (`GraphRepair.Neo4jGraph.RepairDuplicateAccounts`, whose `United` and `Unites` say this;
  `GraphRepair.BothSpellingsStay` is an example).
- `ingestion/maintenance.go:20-38` refreshes two hours at a time. A row that arrives for an older hour
  leaves the chart wrong until a window reaches back to it (`Rollup.RollupExact`).
- `api/security.go:55-61` limits requests per minute. Over a minute that straddles two windows up to
  2 * limit - 1 requests pass (`Limiter.MinuteBoundReached`), so only a limit of one holds for every
  minute (`Limiter.PerMinuteIff`); `Limiter.ExceededIff` says for every trace which minutes exceed it.
- `store/embedding.go:40-54` leaves a trailer in place when program and metadata together are a
  single byte (`Bytecode.SkeletonIsOpcodes`).

## Model

| member | source | states |
|---|---|---|
| LedgerInvariant.SaveBlockKeeps | store/postgres.go:186-362 | a committed block leaves every row in order: mined exactly when it names a stored block and carries that block's time, no receipt data otherwise, every reference resolving |
| LedgerInvariant.StepKeeps | store/postgres.go:144-522 | every writer, committing or rolled back, keeps the invariant of transactions, transfers, jobs, accounts and blocks |
| LedgerInvariant.RunKeeps | migrations/000008_chain_data.up.sql:1-57 | every state of every run is consistent, including the foreign keys and status checks of the schema |
| LedgerInvariant.InsertRowsEffect | store/postgres.go:383-392 | which key a DO NOTHING insert leaves as it was and which it fills, with the values of the first transfer of that key |
| AccountRows.SaveBlockRecords | store/postgres.go:224-300 | a committed block sees every participant no earlier than it was mined, and no account's last_seen moves back |
| AccountRows.SaveBlockAccounts | store/postgres.go:224-300 | every account row after a committed block, from the block alone: stored are the old accounts and the addresses the block names; contracts are the old ones and those a transaction of it created, and no others; first_seen is kept or the block's time; last_seen is the later of the old time and the block's for a named account, unchanged for any other |
| AccountRows.PendingAccounts | store/postgres.go:144-152 | every account row after a committed pending write: sender and recipient are seen, nobody becomes a contract, and nobody else changes |
| AccountRows.TouchedAccount | store/postgres.go:99-117 | UpsertAccount changes one row of a well-formed address: a contract stays one or becomes one, last_seen is the clock; nothing else changes |
| AccountRows.StepRemembers | store/postgres.go:87-117 | no writer loses an account, changes its first_seen or unmarks a contract; last_seen moves forward but for the clock of UpsertAccount |
| AccountRows.RunRemembers | store/postgres.go:87-117 | so an account once stored stays, over every run |
| Commit.SaveBlockCommits | store/postgres.go:186-249 | a block not yet stored commits if and only if no other height has its hash, every address in it is absent or 0x and 40 hexadecimal digits, no two of its transactions share a hash, a new transaction has a sender, and each transfer names a listed or stored transaction and, unless its key is stored at another height, three accounts |
| Commit.SaveBlockRefused | store/postgres.go:186-392 | a refused block names the constraint it broke, the first in the order of the statements: the hash, an address, a transaction listed twice, or a reference |
| Commit.SavePendingCommits | store/postgres.go:144-179 | a pending write commits if and only if its addresses are addresses and a new transaction has a sender |
| SavedTables.SaveBlockBlocks | store/postgres.go:212-222 | the block table after a committed block: its row stamped with the clock, every other row unchanged |
| SavedTables.SaveBlockTransfers | store/postgres.go:196-392 | each key of the transfer table after a committed block: a row of another height stays, one of its own height goes, and a key then free that the block lists holds the first transfer listed with it, field by field |
| SavedTables.SaveBlockQueues | store/postgres.go:351-403 | each job after a committed block: a fresh one for a transaction with a recipient or created contract that had none, and for one with a listed transfer unless its job is queued already; every other job is as it was |
| SavedTables.SavePendingRows | store/postgres.go:152-179 | the other tables after a committed pending write: nothing for a known hash; otherwise a pending row with the fields given and, with a recipient, a fresh job unless there is one |
| SavedTables.PendingWritesLocked | store/postgres.go:144-179 | every row a pending write adds or changes is among those it has locked |
| Reorg.SaveBlockEffect | store/postgres.go:196-249 | after a block commits, a hash is mined at its height exactly if the block lists it, elsewhere exactly if it was and the block does not; the old transfers of the height are gone |
| Reorg.ReorgTracksChain | store/postgres.go:186-335 | after any run of the writers, with any number of reorganisations, re-deliveries and rolled-back blocks, the mined/block_number table is that of the resulting chain if and only if no transaction of a chain block was taken by another block after that height was last written |
| Reorg.OnceTracksUnique | store/postgres.go:186-335 | where each height is written at most once that condition reads: no transaction is in two blocks |
| Reorg.FlipBackNotRepaired | store/postgres.go:188-195 | once a block took a transaction from a height, re-delivering the block stored there leaves the transaction mined elsewhere or nowhere |
| FlipBack.FlipBackReached | store/postgres.go:186-206 | from empty tables, four committed deliveries after which the resulting chain has a transaction in its first block and nowhere else, and the table has it mined nowhere |
| Reorg.BranchReplacement | store/postgres.go:186-335 | saving a new branch in ascending order, whatever other writers do between its blocks and however often a save is rolled back and retried, gives exactly the new chain if and only if the branch replaces every stored height from the fork point up and no transaction is in two blocks of that chain |
| TransferTable.TransfersFollowEveryRun | store/postgres.go:366-392 | after any run of the writers, with any number of reorganisations, every transfer row is a transfer of the resulting chain, and they are all of them if and only if none found its key stored at another height when its height was last written |
| TransferTable.TransfersFollowChain | store/postgres.go:366-392 | in one ascending pass the exact condition reads: no transfer arrived below the height it was stored at |
| TransferTable.TransferCarriesItsBlock | store/postgres.go:366-392 | after any run of the writers the transaction of a stored transfer is mined at the transfer's block number if and only if the chain lists it there and no later block took it; where blocks carry only their own transactions' transfers the chain always lists it |
| TransferTable.TrackedTransferCarries | store/postgres.go:383-392 | so where both tables follow the chain a transfer row carries the block number its transaction is mined at |
| MovedDown.MinedAtTwoReached | store/postgres.go:186-249 | the starting tables of the failing reorganisation are reached by two block writes |
| MovedDown.MovedDownExample | store/postgres.go:196-206 | a concrete reorganisation after which a mined transaction has lost its transfer |
| MovedDown.OnlyTransfersFallBehind | store/postgres.go:383-392 | from empty tables to that reorganisation: the transaction table follows the new chain, the transfer table does not |
| SavedRows.SaveBlockRows | store/postgres.go:196-335 | every row after a committed block: its transactions mined with their receipts and otherwise unchanged, the old ones of its height pending again, pending rivals replaced; an account is a contract exactly if it was one or a transaction of the block created it |
| SavedRows.NoPendingRival | store/postgres.go:338-349 | afterwards no row is pending with the sender and nonce of a transaction of the block |
| SavedRows.ReplacementUndoes | store/postgres.go:196-206 | whatever a transaction's row was before a block took it, a replacement block that does not list it leaves the row pending with all block and receipt columns cleared, or replaced if the block has its sender and nonce; created_contract stays |
| SavedRows.EmptyBlockUndoes | store/postgres.go:196-206 | so under an empty block a formerly pending transaction has its pending row back, but for created_contract |
| SavedRows.ReplacedStays | store/postgres.go:338-349 | a pending row replaced by a rival in the first block stays replaced when that block is taken away |
| PostgresStore.Postgres.UpsertAccounts | store/postgres.go:87-97 | the row-by-row upsert in any order is the set-based statement; a malformed address aborts it |
| PostgresStore.Postgres.SavePendingBody | store/postgres.go:144-179 | accounts, pending row and outbox job in one transaction; a known hash changes only accounts; a creation gets no job |
| PostgresStore.Postgres.RecordBlockBody | store/postgres.go:196-232 | undo of the stored block, the block row and its participants, against the statement function |
| PostgresStore.Postgres.Gather | store/postgres.go:251-300 | the slices filled in one pass hold exactly the created contracts and the hashes with a recipient or created contract |
| PostgresStore.Postgres.PromoteRows | store/postgres.go:302-335 | promoting row by row is the one-statement upsert |
| PostgresStore.Postgres.UpsertMinedBody | store/postgres.go:251-362 | created contracts, promotion, replacement of competing pending rows and jobs, or the error that aborts them |
| PostgresStore.Postgres.InsertTransfersBody | store/postgres.go:366-406 | transfers inserted one by one and their transactions re-queued |
| PostgresStore.Postgres.SaveBlockBody | store/postgres.go:186-249 | the whole block write equals its statement function, error for error |
| PostgresStore.Postgres.BeginFunc | store/postgres.go:66-80 | one attempt commits whole or leaves every table as it was |
| PostgresStore.Postgres.WithTx | store/postgres.go:66-85 | at most five attempts, other writers acting between them; each before the last met a deadlock or serialization failure and its context went on; the last ends as the write does on the tables then found, or with its fault, or with the end of the context during the back-off, and has no effect unless it succeeds |
| PostgresStore.Postgres.SaveTransaction | store/postgres.go:144-179 | which attempt is the last follows from the faults and the context alone; without a fault the result is that of the pending write on the tables the others left, success and error alike; with one nothing is written and the reason is reported |
| PostgresStore.Postgres.SaveMinedBlock | store/postgres.go:186-249 | the same for the block write |
| PostgresStore.Postgres.MarkDroppedTransactions | store/postgres.go:410-421 | a row is dropped afterwards if and only if it was, or was pending and seen longer ago than the limit; nothing else about any row changes; the number returned is that of the rows that changed |
| PostgresStore.Postgres.ClaimEnrichmentJob | store/postgres.go:429-469 | a job is returned if and only if some unlocked one is open by now and queued, or in processing under a lock at least 120 seconds old; it is the one open longest, by last update among equals; it is locked now with one more attempt, and no other job changes |
| PostgresStore.Postgres.MarkEnrichmentDone | store/postgres.go:473-483 | only a job in processing becomes done, unlocked and without error, and no time comes at which it can be claimed; every other job stays |
| PostgresStore.Postgres.MarkEnrichmentFailed | store/postgres.go:487-506 | only a job in processing is released: failed for good from the sixth attempt on, otherwise due exactly from the end of its back-off on, which is 5, 10, 20, 40, 80 or 160 seconds for 0 to 5 attempts; every other job stays |
| PostgresStore.Postgres.PruneEnrichmentJobs | store/postgres.go:509-522 | at most 10000 jobs go, each done and last updated longer ago than the limit, and all of these if fewer went; no other job changes |
| JobLifecycle.JobStep | store/postgres.go:429-522 | what each step makes of a job, column by column: a claim of a due job, a mark of one in processing, and nothing else but a re-queue changes it; only a prune of a job done longer ago than the limit removes it |
| JobLifecycle.ClaimsLeaseApart | store/postgres.go:429-469 | two claims of a job with no mark or re-queue between them are at least 120 seconds apart |
| JobLifecycle.LeaseExactly | ingestion/enrichment.go:13-19 | until it is marked, re-queued or claimed again, a claimed job can be claimed at a time if and only if that is at least 120 seconds after its claim |
| JobLifecycle.ClaimedExactly | store/postgres.go:433-447 | a job can be claimed if and only if its time has come and it is queued, or in processing under a lock at least 120 seconds old |
| JobLifecycle.PrunedExactly | store/postgres.go:509-522 | a prune may remove at most 10000 jobs, each done longer ago than the limit |
| JobLifecycle.AtMostSixClaims | ingestion/enrichment.go:13-19 | undisturbed, a job is claimed at most six times, at least 10, 20, 40, 80 and 160 seconds apart, so six claims span at least 310 seconds |
| Outbox.ActionExact | ingestion/enrichment.go:21-55 | every action of writers and workers, shared claims and lost leases included, keeps the invariant behind the outbox if and only if it is not a mark that loses a re-queue |
| Outbox.OutboxExact | store/postgres.go:351-403 | throughout a history each stored transaction with a target has a job or had one pruned, and a done or pruned job was enriched after its last re-queue with all transfers stored for it, if and only if no mark loses a re-queue |
| Outbox.NothingMissedUnlessStale | store/postgres.go:429-482 | a guard to check at the mark: nothing is missed if no worker marks a job that was re-queued since its claim and claimed again |
| Outbox.OutboxMissesNothing | store/postgres.go:351-403 | in particular nothing is missed, and no mark can be stale, in a history in which no hash is claimed while an earlier claimant still works on it |
| Outbox.SharedClaimLosesRequeue | store/postgres.go:473-482 | such a mark from any state: a job is done although nobody enriched it after the re-queue |
| LostRequeue.LostRequeueReached | ingestion/enrichment.go:21-55 | from empty tables, a run in which one shared claim makes exactly that happen |
| Delivery.MoveKeepsProjected | ingestion/enrichment.go:59-100 | whatever anybody does afterwards, a successful enrichment stays projected: the transaction's edge and those of the transfers it read were saved |
| Delivery.FinishedIsInGraph | ingestion/enrichment.go:21-100 | outbox and projection as one system: unless a mark loses a re-queue, the graph holds the SENT edge and a TRANSFERRED edge for each stored transfer that is neither mint nor burn, of every transaction whose job is done or was pruned |
| WorkerLoop.EnrichInGraph | ingestion/enrichment.go:59-100 | an enrichment without an error has made the graph calls of the transaction and of all its stored transfers |
| WorkerLoop.TurnIsRun | ingestion/enrichment.go:26-82 | one turn of the worker, others acting before its claim, between its claim, its read and each of its calls, and before its mark, is a run of outbox actions and graph calls that leaves the same tables |
| WorkerLoop.LoopIsRun | ingestion/enrichment.go:21-82 | so is every history of the worker's loop |
| WorkerLoop.LoopDelivers | ingestion/enrichment.go:21-100 | started anywhere in a run from empty tables, among any other workers and writers, the loop ends in a world whose graph holds all there is to hold of every finished transaction, unless a mark loses a re-queue |
| Locking.LockOrderSorted | store/postgres.go:87-97 | the upsert visits each distinct non-empty address once, in increasing order |
| Locking.SaveTransactionPlanSorted | store/postgres.go:144-179 | a pending write takes all its locks in the global order |
| Locking.SaveTransactionPlanLocks | store/postgres.go:144-179 | a pending write locks its two accounts, the transaction, and the job if there is a recipient, and nothing else |
| Locking.ReachableExclusive | store/postgres.go:144-179 | no interleaving ever gives one row to two writers |
| Locking.SomeoneCanStep | store/postgres.go:87-97 | with sorted writers, in every state with an unfinished one, some writer can step |
| Locking.NoWaitCycle | store/postgres.go:87-97 | sorted writers never wait for each other in a circle |
| Locking.EveryRunFinishes | store/postgres.go:87-97 | every run goes on until all writers have ended, after exactly as many steps as there are locks and commits |
| Locking.OppositeOrderDeadlocks | store/postgres.go:87-89 | the deadlock that sorting removes |
| Locking.TwoBatchesSorted | store/postgres.go:224-300 | a block's two upserts are in lock order if and only if every new created contract sorts after every participant |
| Locking.BlockDeadlocksIff | store/postgres.go:224-300 | the two upserts of a block and any number of pending transactions can reach a wait cycle on account rows if and only if a new created contract sorts before a participant |
| Blocks.RunBlocks | ingestion/blocks.go:23-58 | the fetches of the head loop, with uint64 wrap-around, stops and failures, for every run in which each inner loop ends |
| Blocks.FetchesAscend | ingestion/blocks.go:37-55 | one head fetches consecutive heights upwards, its own by hash and the others by number, and only the last fetch may fail |
| Blocks.StartExactly | ingestion/blocks.go:31-35 | where a head starts: at its own height if none was missed, else after the last head but at most 31 heights back, and past its own height when that bound wraps below height 31 |
| Blocks.OwnBlockSaved | ingestion/blocks.go:31-55 | at most 32 fetches per head; its own block is saved if and only if no fetch from the start on fails or is stopped and it is not the first above a gap below height 31, where nothing at all is fetched |
| Blocks.BridgedExactly | ingestion/blocks.go:32-35 | the backfill starts right after the last head exactly when at most 32 heights were missed and the bound does not wrap |
| Blocks.HeadsSaveSpan | ingestion/blocks.go:23-58 | ascending heads save every height from first to last once and in order if and only if every gap is bridged and no fetch fails or is stopped |
| Blocks.FailureStays | ingestion/blocks.go:37-57 | the height a head fails at and the later ones of that head are saved by no head of the run |
| Blocks.HeadsReplaceBranch | ingestion/blocks.go:37-55 | the head loop composed with block writes, among any other writers and with failures, stops and retries: after a reorganisation the table equals the chain of the saved blocks on top of the old one exactly when that chain has no transaction twice and every old height from the first of them on was saved |
| Blocks.KeepTransactions | ingestion/blocks.go:76-90 | the kept transactions in order, and an index that finds the last of each hash |
| Blocks.IngestBlock | ingestion/blocks.go:60-121 | what reaches SaveBlock, from block and receipts alone: the header with the number of transactions; those with a sender, in order, field by field, each with the contract its receipts name last; the figures of the last receipt of each hash; the transfers the logs say, in order |
| Blocks.DecodedAre | ingestion/blocks.go:107-139 | a transfer reaches the store exactly when a receipt of status 1 has a log with three topics, the Transfer topic and 32 bytes of data that says it: sender in topic 1, recipient in topic 2, the amount the sum of byte i times 256^(31-i) |
| Blocks.DecodedInOrder | ingestion/blocks.go:111-117 | each such log gives one transfer, in the order of the logs |
| Blocks.GatheredTransfersBelong | ingestion/blocks.go:79-114 | every transfer belongs to a transaction of its block if and only if no skipped transaction emits one |
| Blocks.CreatedHasNoRecipient | ingestion/blocks.go:102-106 | a created contract is named by a receipt of a transaction without a recipient |
| Enrichment.Enrich | ingestion/enrichment.go:59-100 | no error is reported exactly when every call made succeeded, and each failure is reported; writes and detections in order |
| Enrichment.EffectsAre | ingestion/enrichment.go:59-122 | which calls are made: the edge of a transaction with a recipient, its transfers if any, the analysis of the created contract or else of the recipient of a call with data, and, once the graph is ready, a loop check for a plain transfer of value and for every token transfer |
| Enrichment.EffectsInOrder | ingestion/enrichment.go:63-99 | in which order: each kind once, the loop checks of the token transfers last, one by one as they were read |
| Enrichment.ClaimReturnsPending | store/postgres.go:429-469 | a transaction written pending comes back from the claim as it was written |
| Enrichment.ClaimReturnsMined | store/postgres.go:302-330 | a transaction written by a block comes back as the block has it, created contract included; of one stored before only the created contract is new |
| Enrichment.Take | ingestion/enrichment.go:34-54 | claim, enrich and mark: the job claimed was claimable; it is marked done if and only if every call succeeded, failed if and only if one did not, and left claimed if and only if the mark was lost or the context ended during a failure |
| Enrichment.WorkOnce | ingestion/enrichment.go:21-55 | one pass, other writers acting before the claim and between claim and mark, is the turn its enrichment earned, and goes on exactly if it was woken or not interrupted |
| Enrichment.EnrichmentWorker | ingestion/enrichment.go:21-55 | the worker among other writers: the history of the tables turn by turn, which ends early exactly at the turn that stops it |
| Projection.Neo4j.SaveTransaction | store/neo4j.go:125-160 | unless rolled back, the edge carries value, value over 10^18, nonce and timestamp, both accounts are met then, and no other edge changes; no error exactly if nothing was to be written or the commit was confirmed |
| Projection.Neo4j.SaveTokenTransfers | store/neo4j.go:162-205 | unless rolled back, the transfers whose ends are neither blank nor the zero address are merged in place and nothing else; no error exactly if there was none or the commit was confirmed |
| Projection.RunDescribes | store/neo4j.go:125-205 | after any calls the graph holds exactly the rows' edges and accounts, each last seen at its latest timestamp |
| Projection.ProjectionConverges | store/neo4j.go:125-205 | histories making the same calls in any order with any repeats end with the same edges, properties and last_seen |
| Projection.EdgesOfCalls | store/neo4j.go:125-205 | over any calls, exactly the transactions with a recipient have SENT edges and exactly the transfers whose ends are neither blank nor 0x and forty zeros TRANSFERRED ones |
| Projection.EdgeProperties | store/neo4j.go:142-199 | over any calls, payloads that differ included, an edge says what was saved last: value, value over 10^18, nonce and timestamp of the transaction, or token, amount and time of the transfer |
| Projection.AccountProperties | store/neo4j.go:130-198 | an account is there exactly if a call met it, was first seen when it was met first, and last seen at the latest time it was met |
| Projection.FirstSeenDependsOnOrder | store/neo4j.go:130-150 | why first_seen is excluded: it depends on the order of the calls |
| GraphMerge.MergePreservesMeaning | store/neo4j.go:612-680 | merging a node into its twin keeps, up to normalisation, every address, address-level edge, property and contract flag, self-loops and edges between duplicates included, removes just that node, and writes the normalised address |
| GraphMerge.MergedRelationships | store/neo4j.go:612-680 | every relationship after a merge, property by property, with payloads that differ: none touches the node removed, those with the kept node at one end took over the duplicate's, its values winning, and a loop took over all four between the two |
| GraphRepair.Neo4jGraph.RepairAccountGroup | store/neo4j.go:612-680 | the group is merged into its smallest id under the normalised address, no other node changes, and the number deleted is one less than the group; a blank address or an empty group is left alone |
| GraphRepair.Neo4jGraph.QueryDuplicates | store/neo4j.go:690-712 | the strings stored by two or more nodes, each once, largest group first and then in string order, up to the limit, and none left out that comes before a listed one |
| GraphRepair.AheadExactly | store/neo4j.go:690-703 | the order of the listing: more nodes first, and of equal groups the string with the smaller character where they first differ, or the shorter |
| GraphRepair.Neo4jGraph.DuplicateAccountGroups | store/neo4j.go:690-733 | the nodes of the strings the query lists, in its order, each group under its normalised address, blank ones skipped |
| GraphRepair.Neo4jGraph.RepairDuplicateAccounts | store/neo4j.go:533-566 | with any database failures and whenever it is cancelled, the batches keep the address-level graph up to normalisation, and a spelling loses its nodes only if it was stored twice; without an error no string is stored twice but blank ones and those hidden behind a full batch of blank ones, and if the blank ones leave room an address ends with at most one node, a contract exactly if one of its nodes was, if and only if it had at most one or no other spelling of it was stored just once; the count is the number of nodes removed |
| GraphRepair.FlagIsOr | store/neo4j.go:612-640 | once one node stands for an address, which the repair establishes, it is a contract exactly if one of the merged nodes was |
| GraphRepair.BlankHides | store/neo4j.go:690-733 | a concrete graph in which blank nodes hide a group from batches of one and not from larger ones |
| GraphRepair.NormalisedUnites | store/neo4j.go:533-566 | where every stored address is normalised the condition holds of every address |
| GraphRepair.TwoSpellings | store/neo4j.go:690-712 | two nodes that store different spellings of one address are listed by no query |
| GraphRepair.BothSpellingsStay | store/neo4j.go:533-566 | whatever a repair of two such nodes does, both are left |
| Circular.CutCycle | store/neo4j.go:248-294 | cutting the stretch between two visits of an address leaves a shorter match of the query |
| Circular.ShortestIsSimple | store/neo4j.go:256-268 | a shortest return path visits no address twice |
| Circular.AnswerExists | store/neo4j.go:256-268 | if any path matches, a shortest one does |
| Circular.ReturnPathExactly | store/neo4j.go:248-294 | for every hop limit the query finds a shortest chain back of at most that many and at most four transfers, and nothing only if there is none or the ends are not two addresses |
| Circular.DetectedLoopIsSimple | forensics/circular.go:39-92 | every flagged loop starts and ends at the sender, repeats no address between, and has 2 to 4 aligned transfers |
| Circular.FlagIsRanked | forensics/circular.go:62-92 | the flag names the sender and is ranked low, high or medium for 2, 3 or 4 transfers |
| Circular.DetectedLoopIsInTime | forensics/circular.go:39-76 | its returning transfers never leave the sender again, so do not reuse the closing one, and are in time order within seven days, the closing one last |
| Circular.DetectedLoopIsShortest | store/neo4j.go:256-268 | no shorter chain leads back |
| Circular.FlaggedIffChain | forensics/circular.go:39-76 | a transfer is flagged if and only if a time-ordered chain of at most three stored transfers of the seven days before it leads back |
| Rollup.NetworkRollup.GroupRows | store/postgres.go:1352-1372 | one pass over the rows gives each hour its count, distinct participants, gas price sum and volume |
| Rollup.NetworkRollup.RefreshNetworkHourly | store/postgres.go:1345-1383 | each hour not over at `since` with rows is summarised: its rows counted, their different senders and recipients, the average gas price to the nearest whole number, halves up, and the volume; every other bucket stays; the count returned is that of these hours |
| Rollup.NetworkRollup.NetworkMetrics | store/postgres.go:1387-1416 | one point for each of the last h whole hours, the last being the current one, each with its bucket or zeros; a negative h panics |
| Rollup.AgreesExactly | store/postgres.go:1345-1383 | agreement with the raw table in those terms: a bucket exactly for each whole hour with rows, and it summarises them |
| Rollup.RefreshAgrees | store/postgres.go:1345-1383 | after a refresh every bucket is the direct aggregate if and only if the older ones already were and no bucket of an emptied hour is in the window |
| Rollup.PointIsAggregate | store/postgres.go:1387-1416 | where the rollup agrees a chart point is the aggregate of its hour |
| Rollup.WritersOnlyAdd | store/postgres.go:302-330 | no writer changes the timestamp, parties or amounts of a stored transaction |
| Rollup.RollupExact | ingestion/maintenance.go:20-38 | at every moment of every maintenance run, narrow and wide refreshes mixed with writes, the rollup agrees with the raw table if and only if no hour misses a row; a write adds hours, a refresh clears those of its window |
| Rollup.StartingPoints | store/postgres.go:1345-1383 | a rollup that agrees starts with no stale hour, an empty one with exactly the hours that have rows |
| Rollup.RefreshExact | ingestion/maintenance.go:20-38 | so a refresh, such as the 30-day backfill at startup, restores agreement if and only if its window reaches back to every stale hour, whatever earlier refreshes missed |
| Bytecode.OpcodeSkeleton | store/embedding.go:25-54 | whatever instructions make up the code before its trailer, PUSHk with k bytes or an opcode without an operand, the loop returns their opcodes |
| Bytecode.StripsTrailer | store/embedding.go:40-54 | a metadata trailer is removed exactly when program and trailer are at least two bytes |
| Bytecode.StripsExactly | store/embedding.go:40-54 | of any code the trailer goes, a map of one to four entries with its two-byte length, and nothing goes from code that has none |
| Bytecode.SkeletonIsOpcodes | store/embedding.go:25-54 | decode theorem: the skeleton of a program of such instructions and a trailer is the list of opcode bytes, 0x5f + k for PUSHk, if and only if program and trailer are at least two bytes |
| Bytecode.ClonesShareHash | store/embedding.go:57-62 | the hash is the digest of the opcodes, so two programs share it exactly if their opcodes have one digest, whatever their PUSH operands and metadata |
| Bytecode.SkeletonOfAnyCode | store/embedding.go:25-62 | for any bytes the skeleton is the opcodes of any reading of what is before the trailer, and the hash their digest, empty for no code |
| Bytecode.DisassembleRoundTrip | store/embedding.go:28-34 | encoding the disassembly gives the bytes back, a truncated last PUSH included |
| Bytecode.DisassembleInverse | store/embedding.go:28-34 | there is no other reading of the bytes |
| Embedding.CountGrams | store/embedding.go:77-82 | the counts of all 2- and 3-grams |
| Embedding.KnownAnswers | store/embedding.go:96-113 | the hashes give the published test vectors of FNV-1a and SplitMix64 |
| Embedding.KnownGram | store/embedding.go:96-101 | the hash of a gram covers its length and then its bytes: PUSH1 PUSH1 MSTORE as an example |
| Embedding.CountsAreWindows | store/embedding.go:77-82 | the count of a gram is the number of windows of two and of three opcodes that hash to it |
| Embedding.BucketSumSplit | store/embedding.go:84-91 | a bucket's sum can be taken in any order of the map |
| Embedding.Accumulate | store/embedding.go:84-91 | the signed accumulation over an arbitrary iteration order is the bucket sums |
| Embedding.NormalizedLength | store/embedding.go:196-209 | normalising leaves the zero vector and gives any other unit length |
| Embedding.Normalize | store/embedding.go:196-209 | the two loops in place divide by the length, or leave the zero vector |
| Embedding.EmbedBytecode | store/embedding.go:70-94 | the result is an embedding of the code's skeleton |
| Embedding.EmbeddingSums | store/embedding.go:70-94 | dimension i of 1024 is the sum of the weights of the grams whose hash is i modulo 1024, negative for a set top bit, divided by the length of the whole unless that is zero |
| Embedding.EmbeddingGeometry | store/embedding.go:70-94 | one skeleton has one embedding, of 1024 dimensions, zero or of unit length |
| Embedding.CauchySchwarz | store/embedding.go:211-222 | the squared dot product is at most the product of the squared lengths |
| Embedding.Cosine | store/embedding.go:211-222 | the loop computes the three sums and their ratio, 0 for a zero vector |
| Embedding.CosineBounded | store/embedding.go:211-222 | the cosine of vectors of equal length lies in [-1, 1] |
| Embedding.CosineOfClone | store/embedding.go:15-18 | a vector that is not zero scores 1 against itself |
| Hops.BuildAdjacency | web/components/dashboard/graph-map.tsx:38-44 | the adjacency sets are those of the undirected edges |
| Hops.HopDistances | web/components/dashboard/graph-map.tsx:37-57 | the distance map covers exactly the nodes connected to the centre, each with the length of a shortest undirected walk, and the queue empties |
| Hops.RelaxedIsExact | web/components/dashboard/graph-map.tsx:48-55 | a realised and fully relaxed table is exact |
| Snapshot.SnapshotHub.CloseChanged | api/snapshot.go:39-39 | only an open channel is closed, so publish cannot panic |
| Snapshot.SnapshotHub.Publish | api/snapshot.go:30-42 | a new buffer holds the text, latest is the snapshot, the old channel is closed and the new one open; nothing if the snapshot cannot be encoded |
| Snapshot.SnapshotHub.Current | api/snapshot.go:45-49 | the payload with the open channel that its successor closes |
| Snapshot.HandleEventStream | api/server.go:636-657 | the subscriber loop sends what its rounds call for |
| Snapshot.StreamExactly | api/server.go:636-657 | the stream sends each payload that differs from the one read before, in order and once, until the request ends, a heartbeat fails or a write fails |
| Snapshot.StreamIncreases | api/server.go:636-645 | over ever newer reads each version is sent at most once and in order |
| Snapshot.StepsAreOnePass | api/server.go:636-657 | the steps of the interleaved system are one pass of the loop |
| Snapshot.StepKeepsValid | api/snapshot.go:30-49 | every step of publisher and subscribers keeps the protocol invariant |
| Snapshot.NoLostWakeUp | api/server.go:647-650 | in every interleaving a blocked subscriber has sent the latest payload exactly if its channel is open, and can wake exactly if it is closed |
| Snapshot.SentVersionsIncrease | api/server.go:639-645 | what a subscriber sends was published, in strictly increasing versions |
| Snapshot.CatchesUp | api/server.go:636-657 | a live subscriber that is behind sends the latest payload within four steps of its own, without a heartbeat |
| Limiter.RateLimiter.Handle | api/security.go:37-80 | a client's window of one minute opens at its first request and at the first one past it, counts each, admits the first `limit`, and says what remains and the whole seconds left; public paths and a limit of zero or less are never counted |
| Limiter.WindowIsOpeners | api/security.go:51-56 | the stored window is the one defined by request times alone |
| Limiter.OpensNext | api/security.go:51-54 | a request opens a window if and only if it comes more than 60 seconds after the opening of the one before |
| Limiter.WindowAdmitsFirst | api/security.go:51-59 | each window admits exactly its first `limit` requests |
| Limiter.AdmittedCount | api/security.go:51-59 | the requests counted in a minute are those whose window, told from the request times alone, has not spent its limit |
| Limiter.MinuteBound | api/security.go:51-59 | any closed one-minute interval admits at most 2 * limit - 1 requests of a client |
| Limiter.MinuteBoundReached | api/security.go:51-59 | for every limit some trace reaches that bound |
| Limiter.PerMinuteIff | api/security.go:51-59 | no minute of any trace admits more than the limit if and only if the limit is one |
| Limiter.ExceededIff | api/security.go:51-59 | trace by trace, a minute admits more than the limit if and only if a window opens inside it and what is left of the window before, with the new one's first requests, is more than the limit, counted from the request times alone |
| Amount.GroupedShape | web/lib/utils.ts:103-103 | the separators stand at every fourth place from the right and nowhere else |
| Amount.DigitsStripped | web/lib/utils.ts:102-102 | dropping trailing zeros keeps the value and leaves none |
| Amount.ReadPrinted | web/lib/utils.ts:103-105 | reading a printed number gives its sign, digits and places back |
| Amount.PrintsTruncation | web/lib/utils.ts:89-106 | for every integer string, base and precision the text reads back as sign * floor(abs(v) * 10^p / base) / 10^p |
| Amount.TruncationError | web/lib/utils.ts:98-101 | the text falls short by less than 10^-p, and by nothing if and only if the base divides abs(v) * 10^p |
| Amount.LosslessAtFullPrecision | web/lib/utils.ts:108-114 | at the unit's own decimals or more the text is the exact amount |
| Amount.WeiAmounts | web/lib/utils.ts:108-114 | wei as ETH and as gwei: the truncation at the precision asked for, exact from 18 and 9 places on |
| Amount.PrintsDistinctly | web/lib/utils.ts:89-114 | at that precision two amounts print alike if and only if sign and magnitude agree |
| Amount.IntegerExactly | web/lib/utils.ts:93-95 | what is read as an integer: decimal digits, after a minus sign or not |
| Amount.OtherTexts | web/lib/utils.ts:90-106 | the text of an integer ends with its unit, no amount is zero of it, and any other text is shown as it is |
| Amount.TextShape | web/lib/utils.ts:98-105 | the text is the sign, the whole part in groups without leading zeros, then a point and digits that do not end in a zero if there are any, a space and the unit |
| Amount.UnitsExactly | web/lib/utils.ts:108-114 | wei is printed with 18 decimals as ETH, four places unless others are asked for, and with nine as gwei, two places |

## Left out

- HTTP routing, JSON, authentication, CORS, event-stream framing, the pages and the SVG drawing.
- The PostgreSQL, Neo4j and pgvector engines: each statement is its documented effect, each
  transaction one atomic step. A PostgreSQL commit whose outcome the client never learns is not modelled.
- NUMERIC columns: amounts arrive as numbers, so a malformed amount string is not modelled, nor are
  the int64 casts of block numbers and gas.
- Keccak, EIP-55, ECDSA sender recovery and JSON-RPC: hashes, addresses and senders are given.
- How long withTx waits between two attempts and a worker between two polls.
- Sub-microsecond times: the database keeps microseconds, and so does the model throughout.
- Restoring `replaced` rows or `created_contract` when a reorganisation takes a block away: the code
  does not do it; SavedRows says what is left.
- Behaviour vectors, HNSW search, anomaly rules and similarity thresholds: calibrated, not derived.
- The dashboard queries other than the rollup, entity seeds, the traffic generator, and the drawing
  of traces and merged edges on the graph map: easy members.
- `analyseContract` is a single call that succeeds or fails; the account it touches is the
  `TouchAccount` step of Ledger.
- Delivery.FinishedIsInGraph: is about a listener with a graph database; without one there is nothing
  to project.
- Locking.EveryRunFinishes: is about writers that lock one sorted batch.
- Locking.BlockDeadlocksIff: is about account rows. SaveBlock also locks transaction rows, in list order
  (`store/postgres.go:302-330`) and on a reorganisation before any account (200-206), and
  MarkDroppedTransactions locks them in scan order (410-417); neither is modelled.
- Reorg.BranchReplacement: assumes a block hash fixes the block's transactions, as the node's hashing
  does.
- Blocks.HeadsSaveSpan: is about ascending heads below the largest uint64 number.
- Enrichment.EnrichmentWorker: lets the other writers do anything but remove transactions or break the
  queue's foreign key; Outbox says what they and the workers do together.
- Projection.ProjectionConverges: leaves out first_seen, which depends on the order of calls
  (Projection.FirstSeenDependsOnOrder).
- Projection.Neo4j.SaveTransaction: computes value_eth as an exact real.
- GraphMerge.MergePreservesMeaning: keeps at most one relationship per pair of nodes, kind and key,
  so the multiplicity of parallel relationships with one key is not modelled.
- GraphRepair.Neo4jGraph.RepairDuplicateAccounts: takes the normal form of an address as any idempotent
  function of it; the checksum itself is Keccak's. With a full batch of blank groups it says only which
  strings stay stored twice.
- Circular.DetectedLoopIsSimple: takes the query's answer as any shortest match; Neo4j may return any
  of them.
- Rollup.NetworkRollup.RefreshNetworkHourly: rounds the average gas price to a whole number, half up,
  as the stored column does; the intermediate precision of AVG is not modelled.
- Embedding.EmbeddingGeometry: is over exact reals with an arbitrary weight function for 1 + ln(count)
  and any square root satisfying its equation; floating-point rounding is not modelled.
- Embedding.CosineBounded: is over exact reals likewise.
- Snapshot.NoLostWakeUp: numbers buffers and channels by creation, so a buffer is never reused while a
  subscriber still remembers it.
- Limiter.MinuteBound: takes requests in lock order with non-decreasing times.
