/** The write statements of the PostgreSQL store, each as a function on the tables:
    the rows after the statement, or the constraint that aborts it. */
module Ledger {
  import opened Prelude
  import opened Schema

  type Outcome = Result<Db, SqlError>

  // ----- Accounts -----

  /** INSERT ... ON CONFLICT DO UPDATE over the distinct non-empty addresses. */
  function UpsertAccounts(
    accounts: map<Address, AccountRow>, addresses: set<Address>, seen: Time)
    : Result<map<Address, AccountRow>, SqlError>
  {
    var named := addresses - {""};
    if exists a | a in named :: !WellFormed(a) then Err(CheckViolation)
    else Ok(map a | a in accounts.Keys + named ::
      if a !in accounts then AccountRow(false, seen, seen)
      else if a in named then accounts[a].(lastSeen := Max(accounts[a].lastSeen, seen))
      else accounts[a])
  }

  function MarkContracts(accounts: map<Address, AccountRow>, created: set<Address>)
    : map<Address, AccountRow>
  {
    map a | a in accounts ::
      if a in created && !accounts[a].isContract then accounts[a].(isContract := true) else accounts[a]
  }

  // ----- Enrichment jobs -----

  function NewJob(now: Time): JobRow { JobRow(Queued, 0, now, None, false, now) }

  /** Insert jobs, leaving existing ones alone. */
  function Enqueue(jobs: map<Hash, JobRow>, hashes: set<Hash>, now: Time): map<Hash, JobRow> {
    map h | h in jobs.Keys + hashes :: if h in jobs then jobs[h] else NewJob(now)
  }

  /** Insert jobs, and reset the existing ones that are not already queued. */
  function Requeue(jobs: map<Hash, JobRow>, hashes: set<Hash>, now: Time): map<Hash, JobRow> {
    map h | h in jobs.Keys + hashes ::
      if h !in jobs then NewJob(now)
      else if h in hashes && jobs[h].status != Queued then NewJob(now)
      else jobs[h]
  }

  // ----- Pending transactions -----

  function PendingRow(tx: Tx): TxRow {
    TxRow(tx.from, Nullable(tx.to), tx.payload, tx.timestamp, Pending, None, None, None, None, None, None)
  }

  /** SaveTransaction: accounts, transaction and outbox job in one transaction. */
  function SavePending(db: Db, tx: Tx, now: Time): Outcome {
    match UpsertAccounts(db.accounts, {tx.from, tx.to}, tx.timestamp)
    case Err(e) => Err(e)
    case Ok(accounts) =>
      if tx.hash in db.txs then Ok(db.(accounts := accounts))
      else if tx.from !in accounts then Err(ForeignKeyViolation)
      else Ok(db.(
        accounts := accounts,
        txs := db.txs[tx.hash := PendingRow(tx)],
        jobs := if tx.to == "" then db.jobs else Enqueue(db.jobs, {tx.hash}, now)))
  }

  // ----- Mined blocks -----

  /** True if the block is already stored under the same hash, so nothing is done. */
  predicate AlreadyStored(db: Db, mb: MinedBlock) {
    var n := mb.block.number;
    n in db.blocks && db.blocks[n].block.hash == mb.block.hash
  }

  function RemoveTransfersOf(transfers: map<TransferKey, TransferRow>, n: nat)
    : map<TransferKey, TransferRow>
  {
    map k | k in transfers && transfers[k].blockNumber != n :: transfers[k]
  }

  function Revert(row: TxRow): TxRow {
    row.(status := Pending, blockNumber := None, minedAt := None,
         gasUsed := None, effectiveGasPrice := None, receiptStatus := None)
  }

  function RevertTxsOf(txs: map<Hash, TxRow>, n: nat): map<Hash, TxRow> {
    map h | h in txs :: if txs[h].blockNumber == Some(n) then Revert(txs[h]) else txs[h]
  }

  /** Undo the block stored at the height, if there is one. */
  function UndoBlock(db: Db, n: nat): Db {
    if n in db.blocks then
      db.(transfers := RemoveTransfersOf(db.transfers, n), txs := RevertTxsOf(db.txs, n))
    else db
  }

  function TxAddresses(list: seq<Tx>): set<Address> {
    (set t | t in list :: t.from) + (set t | t in list :: t.to)
  }

  function TransferAddresses(list: seq<Transfer>): set<Address> {
    (set tt | tt in list :: tt.token) + (set tt | tt in list :: tt.from) + (set tt | tt in list :: tt.to)
  }

  function CreatedContracts(list: seq<Tx>): set<Address> {
    (set t | t in list :: t.created) - {""}
  }

  /** The hashes whose transaction has a recipient or created a contract. */
  function JobHashes(list: seq<Tx>): set<Hash> {
    set t | t in list && (t.to != "" || t.created != "") :: t.hash
  }

  predicate DistinctHashes(list: seq<Tx>) {
    forall i, j | 0 <= i < j < |list| :: list[i].hash != list[j].hash
  }

  function FindTx(list: seq<Tx>, h: Hash): (t: Tx)
    requires h in HashSet(list)
    ensures t in list && t.hash == h
  {
    if list[0].hash == h then list[0] else FindTx(list[1..], h)
  }

  function MinedRow(txs: map<Hash, TxRow>, mb: MinedBlock, t: Tx): TxRow {
    var b := mb.block;
    var base := if t.hash in txs then txs[t.hash]
                else PendingRow(t).(timestamp := b.minedAt);
    var hasReceipt := t.hash in mb.receipts;
    base.(
      status := Mined, blockNumber := Some(b.number), minedAt := Some(b.minedAt),
      gasUsed := if hasReceipt && mb.receipts[t.hash].gasUsed != 0 then Some(mb.receipts[t.hash].gasUsed) else None,
      effectiveGasPrice := if hasReceipt then mb.receipts[t.hash].effectiveGasPrice else None,
      receiptStatus :=
        if hasReceipt && mb.receipts[t.hash].status != -1 then Some(mb.receipts[t.hash].status) else None,
      created := Nullable(t.created))
  }

  function PromoteTxs(txs: map<Hash, TxRow>, mb: MinedBlock): map<Hash, TxRow> {
    var hashes := HashSet(mb.transactions);
    map h | h in txs.Keys + hashes ::
      if h in hashes then MinedRow(txs, mb, FindTx(mb.transactions, h)) else txs[h]
  }

  /** A pending row loses to a mined one with the same sender and nonce. */
  predicate ReplacedBy(h: Hash, row: TxRow, list: seq<Tx>) {
    && row.status == Pending
    && exists t | t in list :: t.from == row.from && t.payload.nonce == row.payload.nonce && t.hash != h
  }

  function MarkReplaced(txs: map<Hash, TxRow>, list: seq<Tx>): map<Hash, TxRow> {
    map h | h in txs :: if ReplacedBy(h, txs[h], list) then txs[h].(status := Replaced) else txs[h]
  }

  /** A row to insert refers to no account. */
  predicate SenderUnknown(txs: map<Hash, TxRow>, accounts: map<Address, AccountRow>, list: seq<Tx>) {
    exists t | t in list :: t.hash !in txs && t.from !in accounts
  }

  function UpsertMined(db: Db, mb: MinedBlock, now: Time): Outcome {
    var list := mb.transactions;
    match UpsertAccounts(db.accounts, CreatedContracts(list), mb.block.minedAt)
    case Err(e) => Err(e)
    case Ok(upserted) =>
      var accounts := MarkContracts(upserted, CreatedContracts(list));
      if !DistinctHashes(list) then Err(CardinalityViolation)
      else if SenderUnknown(db.txs, accounts, list) then Err(ForeignKeyViolation)
      else Ok(db.(
        accounts := accounts,
        txs := MarkReplaced(PromoteTxs(db.txs, mb), list),
        jobs := Enqueue(db.jobs, JobHashes(list), now)))
  }

  /** INSERT ... ON CONFLICT (tx_hash, log_index) DO NOTHING, row by row. */
  function InsertRows(transfers: map<TransferKey, TransferRow>, n: nat, list: seq<Transfer>)
    : map<TransferKey, TransferRow>
    decreases |list|
  {
    if list == [] then transfers
    else
      var tt := list[0];
      var row := TransferRow(n, tt.token, tt.from, tt.to, tt.amount);
      InsertRows(if Key(tt) in transfers then transfers else transfers[Key(tt) := row], n, list[1..])
  }

  predicate ReferencesResolve(db: Db, tt: Transfer) {
    && tt.txHash in db.txs
    && (Key(tt) !in db.transfers ==> {tt.token, tt.from, tt.to} <= db.accounts.Keys)
  }

  function InsertTransfers(db: Db, n: nat, list: seq<Transfer>, now: Time): Outcome {
    if exists tt | tt in list :: !ReferencesResolve(db, tt) then Err(ForeignKeyViolation)
    else Ok(db.(
      transfers := InsertRows(db.transfers, n, list),
      jobs := Requeue(db.jobs, TransferHashes(list), now)))
  }

  predicate HashTakenElsewhere(db: Db, b: Block) {
    exists m | m in db.blocks :: m != b.number && db.blocks[m].block.hash == b.hash
  }

  /** SaveBlock up to and including the accounts: undo, block row, participants. */
  function RecordBlock(db: Db, mb: MinedBlock, now: Time): Outcome {
    var undone := UndoBlock(db, mb.block.number);
    if HashTakenElsewhere(undone, mb.block) then Err(UniqueViolation)
    else
      var participants := TxAddresses(mb.transactions) + TransferAddresses(mb.transfers);
      match UpsertAccounts(undone.accounts, participants, mb.block.minedAt)
      case Err(e) => Err(e)
      case Ok(accounts) =>
        Ok(undone.(blocks := undone.blocks[mb.block.number := BlockRow(mb.block, now)], accounts := accounts))
  }

  /** SaveBlock: one transaction. */
  function SaveBlock(db: Db, mb: MinedBlock, now: Time): Outcome {
    if AlreadyStored(db, mb) then Ok(db)
    else
      match RecordBlock(db, mb, now)
      case Err(e) => Err(e)
      case Ok(recorded) =>
        match (if mb.transactions == [] then Ok(recorded) else UpsertMined(recorded, mb, now))
        case Err(e) => Err(e)
        case Ok(promoted) =>
          if mb.transfers == [] then Ok(promoted)
          else InsertTransfers(promoted, mb.block.number, mb.transfers, now)
  }

  // ----- Maintenance -----

  function DropStale(txs: map<Hash, TxRow>, before: Time): map<Hash, TxRow> {
    map h | h in txs ::
      if txs[h].status == Pending && txs[h].timestamp < before then txs[h].(status := Dropped) else txs[h]
  }

  // ----- The queue -----

  predicate Claimable(job: JobRow, now: Time, staleBefore: Time) {
    && job.availableAt <= now
    && (job.status == Queued ||
        (job.status == Processing && job.lockedAt.Some? && job.lockedAt.value <= staleBefore))
  }

  function ClaimJob(job: JobRow, now: Time): JobRow {
    job.(status := Processing, attempts := job.attempts + 1, lockedAt := Some(now), updatedAt := now)
  }

  function MarkDone(job: JobRow, now: Time): JobRow {
    if job.status != Processing then job
    else job.(status := Done, lockedAt := None, hasError := false, updatedAt := now)
  }

  /** power(2, attempts) * 5 seconds, capped at 300 seconds. */
  function Backoff(attempts: nat): Time {
    Min(Pow2(attempts) * 5, 300) * SECOND
  }

  function Pow2(n: nat): nat { if n == 0 then 1 else 2 * Pow2(n - 1) }

  function MarkFailed(job: JobRow, now: Time, maxAttempts: nat): JobRow {
    if job.status != Processing then job
    else job.(
      status := if job.attempts >= maxAttempts then Failed else Queued,
      lockedAt := None, hasError := true,
      availableAt := now + Backoff(job.attempts), updatedAt := now)
  }

  predicate Prunable(job: JobRow, before: Time) {
    job.status == Done && job.updatedAt < before
  }

  // ----- One committed step of any writer -----

  const LEASE: Time := 2 * MINUTE
  const MAX_ATTEMPTS: nat := 6

  datatype Op =
    | SaveTx(tx: Tx, now: Time)
    | SaveMined(mb: MinedBlock, now: Time)
    | TouchAccount(address: Address, isContract: bool, now: Time)
    | DropOld(olderThan: Time, now: Time)
    | Claim(hash: Hash, now: Time)
    | Complete(hash: Hash, now: Time)
    | Fail(hash: Hash, now: Time)
    | Prune(hashes: set<Hash>, olderThan: Time, now: Time)

  /** UpsertAccount: insert an account or mark it as a contract. */
  function Touch(db: Db, address: Address, isContract: bool, now: Time): Outcome {
    if address == "" then Ok(db)
    else if !WellFormed(address) then Err(CheckViolation)
    else Ok(db.(accounts := db.accounts[address :=
      if address in db.accounts
      then db.accounts[address].(lastSeen := now, isContract := db.accounts[address].isContract || isContract)
      else AccountRow(isContract, now, now)]))
  }

  /** A claim picks one claimable job; a prune deletes some finished old jobs. */
  predicate Enabled(db: Db, op: Op) {
    match op
    case Claim(h, now) => h in db.jobs && Claimable(db.jobs[h], now, now - LEASE)
    case Prune(hs, olderThan, now) =>
      |hs| <= 10000 && forall h | h in hs :: h in db.jobs && Prunable(db.jobs[h], now - olderThan)
    case _ => true
  }

  function Attempt(db: Db, op: Op): Outcome {
    match op
    case SaveTx(tx, now) => SavePending(db, tx, now)
    case SaveMined(mb, now) => SaveBlock(db, mb, now)
    case TouchAccount(a, isContract, now) => Touch(db, a, isContract, now)
    case DropOld(olderThan, now) => Ok(db.(txs := DropStale(db.txs, now - olderThan)))
    case Claim(h, now) =>
      if Enabled(db, op) then Ok(db.(jobs := db.jobs[h := ClaimJob(db.jobs[h], now)])) else Ok(db)
    case Complete(h, now) =>
      if h in db.jobs then Ok(db.(jobs := db.jobs[h := MarkDone(db.jobs[h], now)])) else Ok(db)
    case Fail(h, now) =>
      if h in db.jobs then Ok(db.(jobs := db.jobs[h := MarkFailed(db.jobs[h], now, MAX_ATTEMPTS)])) else Ok(db)
    case Prune(hs, _, now) =>
      if Enabled(db, op) then Ok(db.(jobs := db.jobs - hs)) else Ok(db)
  }

  /** A failed statement rolls its transaction back, so the tables stay as they were. */
  function Step(db: Db, op: Op): Db {
    match Attempt(db, op)
    case Ok(after) => after
    case Err(_) => db
  }

  const EMPTY: Db := Db(map[], map[], map[], map[], map[])

  /** states is the history of the tables under ops, one committed or rolled-back step at a time. */
  ghost predicate IsRun(states: seq<Db>, ops: seq<Op>) {
    && |states| == |ops| + 1
    && forall k | 0 <= k < |ops| :: states[k + 1] == Step(states[k], ops[k])
  }
}
