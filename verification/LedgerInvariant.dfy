/** What every writer keeps true of every row, in every run. */
module LedgerInvariant {
  import opened Prelude
  import opened Schema
  import opened Ledger

  // ----- Transactions -----

  /** Mined exactly when the row names a block, with that block's time; no receipt data otherwise. */
  predicate TxRowOk(row: TxRow, blocks: map<nat, BlockRow>, accounts: set<Address>) {
    && (row.status == Mined <==> row.blockNumber.Some?)
    && (row.status == Mined <==> row.minedAt.Some?)
    && (row.status == Mined ==>
          row.blockNumber.value in blocks && row.minedAt.value == blocks[row.blockNumber.value].block.minedAt)
    && (row.status != Mined ==> row.gasUsed.None? && row.effectiveGasPrice.None? && row.receiptStatus.None?)
    && row.from in accounts
    && (row.to.Some? ==> row.to.value in accounts)
    && (row.created.Some? ==> row.created.value in accounts)
  }

  ghost predicate TxsOk(txs: map<Hash, TxRow>, blocks: map<nat, BlockRow>, accounts: set<Address>) {
    forall h | h in txs :: TxRowOk(txs[h], blocks, accounts)
  }

  // ----- Token transfers -----

  predicate TransferOk(k: TransferKey, row: TransferRow, blocks: set<nat>, txs: set<Hash>, accounts: set<Address>) {
    && k.txHash in txs
    && row.blockNumber in blocks
    && {row.token, row.from, row.to} <= accounts
  }

  ghost predicate TransfersOk(
    transfers: map<TransferKey, TransferRow>, blocks: set<nat>, txs: set<Hash>, accounts: set<Address>)
  {
    forall k | k in transfers :: TransferOk(k, transfers[k], blocks, txs, accounts)
  }

  // ----- Jobs -----

  predicate JobOk(job: JobRow) {
    && (job.status == Processing <==> job.lockedAt.Some?)
    && (job.status == Queued ==> job.attempts < MAX_ATTEMPTS)
    && (job.status == Failed ==> job.attempts >= MAX_ATTEMPTS)
  }

  ghost predicate JobsOk(jobs: map<Hash, JobRow>, txs: set<Hash>) {
    forall h | h in jobs :: h in txs && JobOk(jobs[h])
  }

  // ----- Accounts and blocks -----

  ghost predicate AccountsOk(accounts: map<Address, AccountRow>) {
    forall a | a in accounts :: WellFormed(a)
  }

  ghost predicate BlocksOk(blocks: map<nat, BlockRow>) {
    && (forall n | n in blocks :: blocks[n].block.number == n)
    && (forall m, n | m in blocks && n in blocks && m != n :: blocks[m].block.hash != blocks[n].block.hash)
  }

  ghost predicate Consistent(db: Db) {
    && TxsOk(db.txs, db.blocks, db.accounts.Keys)
    && TransfersOk(db.transfers, db.blocks.Keys, db.txs.Keys, db.accounts.Keys)
    && JobsOk(db.jobs, db.txs.Keys)
    && AccountsOk(db.accounts)
    && BlocksOk(db.blocks)
  }

  // ----- Statement by statement -----

  lemma UpsertAccountsEffect(
    accounts: map<Address, AccountRow>, addresses: set<Address>, seen: Time, after: map<Address, AccountRow>)
    requires UpsertAccounts(accounts, addresses, seen) == Ok(after)
    ensures after.Keys == accounts.Keys + (addresses - {""})
    ensures AccountsOk(accounts) ==> AccountsOk(after)
  {
  }

  /** New accounts never break a reference. */
  lemma MoreAccounts(db: Db, accounts: map<Address, AccountRow>)
    requires Consistent(db) && db.accounts.Keys <= accounts.Keys && AccountsOk(accounts)
    ensures Consistent(db.(accounts := accounts))
  {
    forall h | h in db.txs ensures TxRowOk(db.txs[h], db.blocks, accounts.Keys) {
      assert TxRowOk(db.txs[h], db.blocks, db.accounts.Keys);
    }
    forall k | k in db.transfers
      ensures TransferOk(k, db.transfers[k], db.blocks.Keys, db.txs.Keys, accounts.Keys)
    {
      assert TransferOk(k, db.transfers[k], db.blocks.Keys, db.txs.Keys, db.accounts.Keys);
    }
  }

  lemma SavePendingKeeps(db: Db, tx: Tx, now: Time, after: Db)
    requires Consistent(db) && SavePending(db, tx, now) == Ok(after)
    ensures Consistent(after)
  {
    var accounts := UpsertAccounts(db.accounts, {tx.from, tx.to}, tx.timestamp).value;
    UpsertAccountsEffect(db.accounts, {tx.from, tx.to}, tx.timestamp, accounts);
    var seen := db.(accounts := accounts);
    MoreAccounts(db, accounts);
    if tx.hash !in db.txs {
      InsertPendingKeeps(seen, tx, after.jobs);
    }
  }

  lemma InsertPendingKeeps(db: Db, tx: Tx, jobs: map<Hash, JobRow>)
    requires Consistent(db) && tx.hash !in db.txs
    requires tx.from in db.accounts && (tx.to != "" ==> tx.to in db.accounts)
    requires JobsOk(jobs, db.txs.Keys + {tx.hash})
    ensures Consistent(db.(txs := db.txs[tx.hash := PendingRow(tx)], jobs := jobs))
  {
    var after := db.(txs := db.txs[tx.hash := PendingRow(tx)], jobs := jobs);
    assert after.txs.Keys == db.txs.Keys + {tx.hash};
    forall k | k in db.transfers
      ensures TransferOk(k, db.transfers[k], db.blocks.Keys, after.txs.Keys, db.accounts.Keys)
    {
      assert TransferOk(k, db.transfers[k], db.blocks.Keys, db.txs.Keys, db.accounts.Keys);
    }
  }

  lemma UndoKeeps(db: Db, n: nat)
    requires Consistent(db)
    ensures Consistent(UndoBlock(db, n))
    ensures forall h | h in UndoBlock(db, n).txs :: UndoBlock(db, n).txs[h].blockNumber != Some(n)
    ensures forall k | k in UndoBlock(db, n).transfers :: UndoBlock(db, n).transfers[k].blockNumber != n
  {
    if n in db.blocks {
      var txs := RevertTxsOf(db.txs, n);
      var transfers := RemoveTransfersOf(db.transfers, n);
      assert txs.Keys == db.txs.Keys;
      forall h | h in txs ensures TxRowOk(txs[h], db.blocks, db.accounts.Keys) {
        assert TxRowOk(db.txs[h], db.blocks, db.accounts.Keys);
      }
      forall k | k in transfers
        ensures TransferOk(k, transfers[k], db.blocks.Keys, txs.Keys, db.accounts.Keys)
      {
        assert TransferOk(k, db.transfers[k], db.blocks.Keys, db.txs.Keys, db.accounts.Keys);
      }
    } else {
      forall h | h in db.txs ensures db.txs[h].blockNumber != Some(n) {
        assert TxRowOk(db.txs[h], db.blocks, db.accounts.Keys);
      }
      forall k | k in db.transfers ensures db.transfers[k].blockNumber != n {
        assert TransferOk(k, db.transfers[k], db.blocks.Keys, db.txs.Keys, db.accounts.Keys);
      }
    }
  }

  lemma RecordBlockKeeps(db: Db, mb: MinedBlock, now: Time, after: Db)
    requires Consistent(db) && RecordBlock(db, mb, now) == Ok(after)
    ensures Consistent(after)
    ensures mb.block.number in after.blocks && after.blocks[mb.block.number].block == mb.block
    ensures TxAddresses(mb.transactions) - {""} <= after.accounts.Keys
  {
    var n := mb.block.number;
    var undone := UndoBlock(db, n);
    UndoKeeps(db, n);
    var participants := TxAddresses(mb.transactions) + TransferAddresses(mb.transfers);
    UpsertAccountsEffect(undone.accounts, participants, mb.block.minedAt, after.accounts);
    assert undone.accounts.Keys <= after.accounts.Keys;
    forall h | h in after.txs ensures TxRowOk(after.txs[h], after.blocks, after.accounts.Keys) {
      assert TxRowOk(undone.txs[h], undone.blocks, undone.accounts.Keys);
    }
  }

  lemma PromotedTxsOk(txs: map<Hash, TxRow>, mb: MinedBlock, blocks: map<nat, BlockRow>, accounts: set<Address>)
    requires TxsOk(txs, blocks, accounts)
    requires mb.block.number in blocks && blocks[mb.block.number].block == mb.block
    requires TxAddresses(mb.transactions) - {""} <= accounts && CreatedContracts(mb.transactions) <= accounts
    requires forall t | t in mb.transactions :: t.hash in txs || t.from in accounts
    ensures TxsOk(PromoteTxs(txs, mb), blocks, accounts)
  {
    var list := mb.transactions;
    forall h | h in PromoteTxs(txs, mb) ensures TxRowOk(PromoteTxs(txs, mb)[h], blocks, accounts) {
      if h in HashSet(list) {
        PromotedRowOk(txs, mb, FindTx(list, h), blocks, accounts);
      } else {
        assert TxRowOk(txs[h], blocks, accounts);
      }
    }
  }

  lemma ReplacedTxsOk(txs: map<Hash, TxRow>, list: seq<Tx>, blocks: map<nat, BlockRow>, accounts: set<Address>)
    requires TxsOk(txs, blocks, accounts)
    ensures TxsOk(MarkReplaced(txs, list), blocks, accounts)
  {
    forall h | h in MarkReplaced(txs, list) ensures TxRowOk(MarkReplaced(txs, list)[h], blocks, accounts) {
      assert TxRowOk(txs[h], blocks, accounts);
    }
  }

  lemma MoreTxsOk(db: Db, txs: map<Hash, TxRow>)
    requires Consistent(db) && db.txs.Keys <= txs.Keys && TxsOk(txs, db.blocks, db.accounts.Keys)
    ensures Consistent(db.(txs := txs))
  {
    forall k | k in db.transfers
      ensures TransferOk(k, db.transfers[k], db.blocks.Keys, txs.Keys, db.accounts.Keys)
    {
      assert TransferOk(k, db.transfers[k], db.blocks.Keys, db.txs.Keys, db.accounts.Keys);
    }
  }

  lemma PromotedKeeps(db: Db, mb: MinedBlock)
    requires Consistent(db)
    requires mb.block.number in db.blocks && db.blocks[mb.block.number].block == mb.block
    requires TxAddresses(mb.transactions) - {""} <= db.accounts.Keys
    requires CreatedContracts(mb.transactions) <= db.accounts.Keys
    requires forall t | t in mb.transactions :: t.hash in db.txs || t.from in db.accounts
    ensures Consistent(db.(txs := MarkReplaced(PromoteTxs(db.txs, mb), mb.transactions)))
  {
    PromotedTxsOk(db.txs, mb, db.blocks, db.accounts.Keys);
    ReplacedTxsOk(PromoteTxs(db.txs, mb), mb.transactions, db.blocks, db.accounts.Keys);
    MoreTxsOk(db, MarkReplaced(PromoteTxs(db.txs, mb), mb.transactions));
  }

  lemma UpsertMinedKeeps(db: Db, mb: MinedBlock, now: Time, after: Db)
    requires Consistent(db) && UpsertMined(db, mb, now) == Ok(after)
    requires mb.block.number in db.blocks && db.blocks[mb.block.number].block == mb.block
    requires TxAddresses(mb.transactions) - {""} <= db.accounts.Keys
    ensures Consistent(after)
    ensures after.blocks == db.blocks
  {
    var list := mb.transactions;
    var created := CreatedContracts(list);
    var upserted := UpsertAccounts(db.accounts, created, mb.block.minedAt).value;
    UpsertAccountsEffect(db.accounts, created, mb.block.minedAt, upserted);
    var accounts := MarkContracts(upserted, created);
    assert accounts.Keys == upserted.Keys;
    MoreAccounts(db, accounts);
    PromotedKeeps(db.(accounts := accounts), mb);
    EnqueueKeeps(db.jobs, db.txs.Keys, JobHashes(list), after.txs.Keys, now);
  }

  lemma EnqueueKeeps(jobs: map<Hash, JobRow>, txs: set<Hash>, hashes: set<Hash>, after: set<Hash>, now: Time)
    requires JobsOk(jobs, txs) && txs <= after && hashes <= after
    ensures JobsOk(Enqueue(jobs, hashes, now), after)
    ensures JobsOk(Requeue(jobs, hashes, now), after)
  {
  }

  lemma PromotedRowOk(
    txs: map<Hash, TxRow>, mb: MinedBlock, t: Tx, blocks: map<nat, BlockRow>, accounts: set<Address>)
    requires TxsOk(txs, blocks, accounts) && t in mb.transactions
    requires mb.block.number in blocks && blocks[mb.block.number].block == mb.block
    requires TxAddresses(mb.transactions) - {""} <= accounts && CreatedContracts(mb.transactions) <= accounts
    requires t.hash in txs || t.from in accounts
    ensures TxRowOk(MinedRow(txs, mb, t), blocks, accounts)
  {
    assert t.created != "" ==> t.created in CreatedContracts(mb.transactions);
    if t.hash in txs {
      assert TxRowOk(txs[t.hash], blocks, accounts);
    } else {
      assert t.to in TxAddresses(mb.transactions);
    }
  }

  lemma {:induction false} InsertRowsEffect(
    transfers: map<TransferKey, TransferRow>, n: nat, list: seq<Transfer>, k: TransferKey)
    ensures k in transfers ==>
      k in InsertRows(transfers, n, list) && InsertRows(transfers, n, list)[k] == transfers[k]
    ensures k !in transfers && k in InsertRows(transfers, n, list) ==>
      exists tt | tt in list ::
        Key(tt) == k && InsertRows(transfers, n, list)[k] == TransferRow(n, tt.token, tt.from, tt.to, tt.amount)
    ensures (exists tt | tt in list :: Key(tt) == k) ==> k in InsertRows(transfers, n, list)
    decreases |list|
  {
    if list == [] {
    } else {
      var tt := list[0];
      var row := TransferRow(n, tt.token, tt.from, tt.to, tt.amount);
      var next := if Key(tt) in transfers then transfers else transfers[Key(tt) := row];
      InsertRowsEffect(next, n, list[1..], k);
      assert forall u :: u in list <==> u == tt || u in list[1..];
    }
  }

  lemma InsertTransfersKeeps(db: Db, n: nat, list: seq<Transfer>, now: Time, after: Db)
    requires Consistent(db) && InsertTransfers(db, n, list, now) == Ok(after)
    requires n in db.blocks
    ensures Consistent(after)
  {
    forall k | k in after.transfers
      ensures TransferOk(k, after.transfers[k], after.blocks.Keys, after.txs.Keys, after.accounts.Keys)
    {
      InsertRowsEffect(db.transfers, n, list, k);
      if k in db.transfers {
        assert TransferOk(k, db.transfers[k], db.blocks.Keys, db.txs.Keys, db.accounts.Keys);
      }
    }
    EnqueueKeeps(db.jobs, db.txs.Keys, TransferHashes(list), after.txs.Keys, now);
  }

  /** The tables between the statements of a block that is not stored yet. */
  lemma SaveBlockStages(db: Db, mb: MinedBlock, now: Time, after: Db) returns (recorded: Db, promoted: Db)
    requires SaveBlock(db, mb, now) == Ok(after) && !AlreadyStored(db, mb)
    ensures RecordBlock(db, mb, now) == Ok(recorded)
    ensures if mb.transactions == [] then promoted == recorded else UpsertMined(recorded, mb, now) == Ok(promoted)
    ensures if mb.transfers == [] then after == promoted
            else InsertTransfers(promoted, mb.block.number, mb.transfers, now) == Ok(after)
  {
    recorded := RecordBlock(db, mb, now).value;
    promoted := if mb.transactions == [] then recorded else UpsertMined(recorded, mb, now).value;
  }

  lemma RecordLeavesJobs(db: Db, mb: MinedBlock, now: Time, after: Db)
    requires RecordBlock(db, mb, now) == Ok(after)
    ensures after.jobs == db.jobs
  {
  }

  lemma PromoteQueues(db: Db, mb: MinedBlock, now: Time, after: Db)
    requires if mb.transactions == [] then after == db else UpsertMined(db, mb, now) == Ok(after)
    ensures after.jobs == Enqueue(db.jobs, JobHashes(mb.transactions), now)
  {
  }

  lemma TransfersRequeue(db: Db, mb: MinedBlock, now: Time, after: Db)
    requires if mb.transfers == [] then after == db
             else InsertTransfers(db, mb.block.number, mb.transfers, now) == Ok(after)
    ensures after.jobs == Requeue(db.jobs, TransferHashes(mb.transfers), now)
  {
  }

  /** What a block does to the queue: a job for every target, and a fresh one for every transfer. */
  lemma SaveBlockJobs(db: Db, mb: MinedBlock, now: Time, after: Db)
    requires SaveBlock(db, mb, now) == Ok(after) && !AlreadyStored(db, mb)
    ensures after.jobs ==
      Requeue(Enqueue(db.jobs, JobHashes(mb.transactions), now), TransferHashes(mb.transfers), now)
  {
    var recorded, promoted := SaveBlockStages(db, mb, now, after);
    RecordLeavesJobs(db, mb, now, recorded);
    PromoteQueues(recorded, mb, now, promoted);
    TransfersRequeue(promoted, mb, now, after);
  }

  lemma SaveBlockKeeps(db: Db, mb: MinedBlock, now: Time, after: Db)
    requires Consistent(db) && SaveBlock(db, mb, now) == Ok(after)
    ensures Consistent(after)
  {
    if !AlreadyStored(db, mb) {
      var recorded, promoted := SaveBlockStages(db, mb, now, after);
      RecordBlockKeeps(db, mb, now, recorded);
      if mb.transactions != [] { UpsertMinedKeeps(recorded, mb, now, promoted); }
      if mb.transfers != [] { InsertTransfersKeeps(promoted, mb.block.number, mb.transfers, now, after); }
    }
  }

  lemma QueueStepKeeps(db: Db, op: Op)
    requires Consistent(db) && (op.Claim? || op.Complete? || op.Fail? || op.Prune?)
    ensures Consistent(Step(db, op))
  {
  }

  /** Every writer keeps the row invariant, whether it commits or rolls back. */
  lemma StepKeeps(db: Db, op: Op)
    requires Consistent(db)
    ensures Consistent(Step(db, op))
  {
    if Attempt(db, op).Ok? {
      match op
      case SaveTx(tx, now) => SavePendingKeeps(db, tx, now, Step(db, op));
      case SaveMined(mb, now) => SaveBlockKeeps(db, mb, now, Step(db, op));
      case TouchAccount(a, _, _) => assert db.accounts.Keys <= Step(db, op).accounts.Keys;
      case DropOld(_, _) =>
      case _ => QueueStepKeeps(db, op);
    }
  }

  /** Every state of every run from consistent tables is consistent. */
  lemma {:induction false} RunKeeps(states: seq<Db>, ops: seq<Op>, k: nat)
    requires IsRun(states, ops) && Consistent(states[0]) && k < |states|
    ensures Consistent(states[k])
  {
    if k > 0 {
      RunKeeps(states, ops, k - 1);
      StepKeeps(states[k - 1], ops[k - 1]);
    }
  }

  lemma EmptyConsistent()
    ensures Consistent(EMPTY)
  {
  }
}
