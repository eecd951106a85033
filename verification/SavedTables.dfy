/** The block, transfer and job tables after a committed write, from what was written alone; SavedRows and
    AccountRows say the same of transactions and accounts. */
module SavedTables {
  import opened Prelude
  import opened Schema
  import opened Ledger
  import opened LedgerInvariant
  import AccountRows
  import Locking

  type Transfers = map<TransferKey, TransferRow>
  type Jobs = map<Hash, JobRow>

  // ----- Transfers -----

  predicate Has(tt: Transfer, k: TransferKey) { tt.txHash == k.txHash && tt.logIndex == k.logIndex }

  /** Transfer i is the first of the list with this key, and the row is that transfer at height n. */
  ghost predicate IsFirst(list: seq<Transfer>, i: nat, k: TransferKey, n: nat, row: TransferRow) {
    && i < |list| && Has(list[i], k) && (forall j | 0 <= j < i :: !Has(list[j], k))
    && row.blockNumber == n && row.token == list[i].token
    && row.from == list[i].from && row.to == list[i].to && row.amount == list[i].amount
  }

  ghost predicate Lists(list: seq<Transfer>, k: TransferKey) {
    exists tt | tt in list :: Has(tt, k)
  }

  /** A free key is filled by the first transfer of the list that has it. */
  lemma {:induction false} InsertedFirst(table: Transfers, n: nat, list: seq<Transfer>, k: TransferKey)
    ensures k in InsertRows(table, n, list) <==> k in table || Lists(list, k)
    ensures k in table ==> InsertRows(table, n, list)[k] == table[k]
    ensures k !in table && k in InsertRows(table, n, list) ==>
      exists i: nat :: IsFirst(list, i, k, n, InsertRows(table, n, list)[k])
    decreases |list|
  {
    if list != [] {
      var tt, rest := list[0], list[1..];
      var next :=
        if Key(tt) in table then table else table[Key(tt) := TransferRow(n, tt.token, tt.from, tt.to, tt.amount)];
      InsertedFirst(next, n, rest, k);
      assert list == [tt] + rest;
      if Has(tt, k) {
        assert Key(tt) == k;
        assert k !in table ==> IsFirst(list, 0, k, n, next[k]);
      } else if k !in table && k in InsertRows(table, n, list) {
        var i: nat :| IsFirst(rest, i, k, n, InsertRows(next, n, rest)[k]);
        assert list[i + 1] == rest[i];
        forall j | 0 <= j < i + 1 ensures !Has(list[j], k) { if j > 0 { assert list[j] == rest[j - 1]; } }
        assert IsFirst(list, i + 1, k, n, InsertRows(table, n, list)[k]);
      }
    }
  }

  /** One key of the transfer table after a committed block: a row of another height stays, one of its own
      height goes, and a key then free that it lists holds the first transfer listed with it. */
  ghost predicate TransferAfter(before: Transfers, after: Transfers, mb: MinedBlock, k: TransferKey) {
    if k in before && before[k].blockNumber != mb.block.number then k in after && after[k] == before[k]
    else
      && (k in after <==> Lists(mb.transfers, k))
      && (k in after ==> exists i: nat :: IsFirst(mb.transfers, i, k, mb.block.number, after[k]))
  }

  lemma SaveBlockTransfers(db: Db, mb: MinedBlock, now: Time, after: Db, k: TransferKey)
    requires Consistent(db) && SaveBlock(db, mb, now) == Ok(after)
    requires mb.block.number in db.blocks ==> db.blocks[mb.block.number].block.hash != mb.block.hash
    ensures TransferAfter(db.transfers, after.transfers, mb, k)
  {
    var recorded, promoted := SaveBlockStages(db, mb, now, after);
    RecordedTransfers(db, mb, now, recorded);
    PromotedTransfers(recorded, mb, now, promoted);
    InsertedTransfers(promoted, mb, now, after);
    TransferInserted(db.transfers, recorded.transfers, after.transfers, mb, k);
  }

  lemma TransferInserted(before: Transfers, others: Transfers, after: Transfers, mb: MinedBlock, k: TransferKey)
    requires OtherHeights(before, others, mb.block.number)
    requires after == InsertRows(others, mb.block.number, mb.transfers)
    ensures TransferAfter(before, after, mb, k)
  {
    InsertedFirst(others, mb.block.number, mb.transfers, k);
  }

  /** The rows of all heights but one. */
  ghost predicate OtherHeights(before: Transfers, others: Transfers, n: nat) {
    && (forall k :: k in others <==> k in before && before[k].blockNumber != n)
    && (forall k | k in others :: others[k] == before[k])
  }

  lemma UndoneTransfers(db: Db, n: nat)
    requires Consistent(db)
    ensures OtherHeights(db.transfers, UndoBlock(db, n).transfers, n)
  {
    UndoKeeps(db, n);
  }

  lemma RecordedTransfers(db: Db, mb: MinedBlock, now: Time, recorded: Db)
    requires Consistent(db) && RecordBlock(db, mb, now) == Ok(recorded)
    ensures OtherHeights(db.transfers, recorded.transfers, mb.block.number)
  {
    UndoneTransfers(db, mb.block.number);
    SameTransfers(db, mb, now, recorded);
  }

  lemma SameTransfers(db: Db, mb: MinedBlock, now: Time, recorded: Db)
    requires RecordBlock(db, mb, now) == Ok(recorded)
    ensures recorded.transfers == UndoBlock(db, mb.block.number).transfers
  {
  }

  lemma PromotedTransfers(recorded: Db, mb: MinedBlock, now: Time, promoted: Db)
    requires if mb.transactions == [] then promoted == recorded else UpsertMined(recorded, mb, now) == Ok(promoted)
    ensures promoted.transfers == recorded.transfers && promoted.blocks == recorded.blocks
  {
  }

  lemma InsertedTransfers(promoted: Db, mb: MinedBlock, now: Time, after: Db)
    requires if mb.transfers == [] then after == promoted
             else InsertTransfers(promoted, mb.block.number, mb.transfers, now) == Ok(after)
    ensures after.transfers == InsertRows(promoted.transfers, mb.block.number, mb.transfers)
    ensures after.blocks == promoted.blocks
  {
  }

  // ----- Blocks -----

  /** The block table after a committed block: its row, stamped with the clock, and no other change. */
  lemma SaveBlockBlocks(db: Db, mb: MinedBlock, now: Time, after: Db)
    requires SaveBlock(db, mb, now) == Ok(after)
    requires mb.block.number in db.blocks ==> db.blocks[mb.block.number].block.hash != mb.block.hash
    ensures after.blocks.Keys == db.blocks.Keys + {mb.block.number}
    ensures after.blocks[mb.block.number].block == mb.block && after.blocks[mb.block.number].ingestedAt == now
    ensures forall n | n in db.blocks && n != mb.block.number :: after.blocks[n] == db.blocks[n]
  {
    var recorded, promoted := SaveBlockStages(db, mb, now, after);
    PromotedTransfers(recorded, mb, now, promoted);
    InsertedTransfers(promoted, mb, now, after);
    RecordedBlocks(db, mb, now, recorded);
  }

  lemma RecordedBlocks(db: Db, mb: MinedBlock, now: Time, recorded: Db)
    requires RecordBlock(db, mb, now) == Ok(recorded)
    ensures recorded.blocks == db.blocks[mb.block.number := BlockRow(mb.block, now)]
  {
  }

  // ----- Jobs -----

  /** A job that has not been claimed: open from now on, never attempted, without a lock or an error. */
  predicate IsFresh(job: JobRow, now: Time) {
    && job.status == Queued && job.attempts == 0 && job.lockedAt.None? && !job.hasError
    && job.availableAt == now && job.updatedAt == now
  }

  /** The transaction has a recipient or created a contract. */
  ghost predicate Targets(mb: MinedBlock, h: Hash) {
    exists t | t in mb.transactions :: t.hash == h && (t.to != "" || t.created != "")
  }

  ghost predicate Logs(mb: MinedBlock, h: Hash) {
    exists tt | tt in mb.transfers :: tt.txHash == h
  }

  /** The job table after a committed block: a fresh job for each of its transactions with a recipient or a
      created contract that had none, and for each transaction it logs a transfer of, unless its job was
      queued already. No other job changes, and none goes. */
  lemma SaveBlockQueues(db: Db, mb: MinedBlock, now: Time, after: Db, h: Hash)
    requires SaveBlock(db, mb, now) == Ok(after)
    requires mb.block.number in db.blocks ==> db.blocks[mb.block.number].block.hash != mb.block.hash
    ensures h in after.jobs <==> h in db.jobs || Targets(mb, h) || Logs(mb, h)
    ensures h in after.jobs ==>
      if h in db.jobs && (db.jobs[h].status == Queued || !Logs(mb, h)) then after.jobs[h] == db.jobs[h]
      else IsFresh(after.jobs[h], now)
  {
    SaveBlockJobs(db, mb, now, after);
    assert h in JobHashes(mb.transactions) <==> Targets(mb, h);
    assert h in TransferHashes(mb.transfers) <==> Logs(mb, h);
  }

  // ----- Pending transactions -----

  /** The tables after a committed pending write. A known hash leaves all but the accounts as they were; a new
      one gets a pending row that is mined nowhere, and with a recipient also a fresh job unless it has one. */
  lemma SavePendingRows(db: Db, tx: Tx, now: Time, after: Db)
    requires SavePending(db, tx, now) == Ok(after)
    ensures after.blocks == db.blocks && after.transfers == db.transfers
    ensures tx.hash in db.txs ==> after.txs == db.txs && after.jobs == db.jobs
    ensures tx.hash !in db.txs ==>
      && after.txs == db.txs[tx.hash := TxRow(
           tx.from, if tx.to == "" then None else Some(tx.to), tx.payload, tx.timestamp,
           Pending, None, None, None, None, None, None)]
      && (tx.to == "" || tx.hash in db.jobs ==> after.jobs == db.jobs)
      && (tx.to != "" && tx.hash !in db.jobs ==>
            && after.jobs.Keys == db.jobs.Keys + {tx.hash} && IsFresh(after.jobs[tx.hash], now)
            && forall h | h in db.jobs :: after.jobs[h] == db.jobs[h])
  {
    if tx.hash !in db.txs && tx.to != "" {
      assert after.jobs == Enqueue(db.jobs, {tx.hash}, now);
    }
  }

  /** Every row that a pending write adds or changes is one it has locked. */
  lemma PendingWritesLocked(less: Locking.Order, db: Db, tx: Tx, now: Time, after: Db)
    requires SavePending(db, tx, now) == Ok(after) && Locking.StrictTotal(less)
    ensures var plan := Locking.SaveTransactionPlan(less, tx);
      && (forall a | a in after.accounts && !(a in db.accounts && after.accounts[a] == db.accounts[a]) ::
            Locking.AccountKey(a) in plan)
      && (forall h | h in after.txs && !(h in db.txs && after.txs[h] == db.txs[h]) :: Locking.TxKey(h) in plan)
      && (forall h | h in after.jobs && !(h in db.jobs && after.jobs[h] == db.jobs[h]) :: Locking.JobKey(h) in plan)
  {
    AccountRows.PendingAccounts(db, tx, now, after);
    SavePendingRows(db, tx, now, after);
    forall r { Locking.SaveTransactionPlanLocks(less, tx, r); }
  }
}
