/** The transaction rows a committed block leaves behind, row by row, and what a second block at the
    same height undoes. */
module SavedRows {
  import opened Prelude
  import opened Schema
  import opened Ledger
  import opened LedgerInvariant
  import opened Reorg
  import AccountRows

  type Rows = map<Hash, TxRow>

  /** A receipt column: NULL without a receipt, and for the source's "unknown" values 0 and -1. */
  predicate ReceiptColumns(row: TxRow, receipts: map<Hash, Receipt>, h: Hash) {
    if h !in receipts then row.gasUsed.None? && row.effectiveGasPrice.None? && row.receiptStatus.None?
    else
      var r := receipts[h];
      && (r.gasUsed == 0 <==> row.gasUsed.None?) && (row.gasUsed.Some? ==> row.gasUsed.value == r.gasUsed)
      && row.effectiveGasPrice == r.effectiveGasPrice
      && (r.status == -1 <==> row.receiptStatus.None?)
      && (row.receiptStatus.Some? ==> row.receiptStatus.value == r.status)
  }

  /** How a row holds an address that may be absent. */
  function OrNull(a: Address): Option<Address> { if |a| == 0 then None else Some(a) }

  /** The row of a transaction of the block: mined there, with its receipt; a row that existed keeps
      its sender, recipient, payload and time of observation. */
  ghost predicate IsMinedRow(before: Rows, after: Rows, mb: MinedBlock, t: Tx) {
    && t.hash in after
    && var row := after[t.hash];
    && row.status == Mined && row.blockNumber == Some(mb.block.number) && row.minedAt == Some(mb.block.minedAt)
    && row.created == OrNull(t.created)
    && ReceiptColumns(row, mb.receipts, t.hash)
    && if t.hash in before
       then row.from == before[t.hash].from && row.to == before[t.hash].to
            && row.payload == before[t.hash].payload && row.timestamp == before[t.hash].timestamp
       else row.from == t.from && row.to == OrNull(t.to)
            && row.payload == t.payload && row.timestamp == mb.block.minedAt
  }

  /** The row of any other transaction: pending again if the height it was mined at is rewritten, and
      replaced if it is then pending and a transaction of the block has its sender and nonce. */
  ghost predicate IsOtherRow(before: TxRow, after: TxRow, mb: MinedBlock) {
    var undone := before.blockNumber == Some(mb.block.number);
    var pending := undone || before.status == Pending;
    var rival := exists t | t in mb.transactions :: t.from == before.from && t.payload.nonce == before.payload.nonce;
    && after.from == before.from && after.to == before.to && after.payload == before.payload
    && after.timestamp == before.timestamp && after.created == before.created
    && after.status == (if pending && rival then Replaced else if undone then Pending else before.status)
    && (if undone then after.blockNumber.None? && after.minedAt.None? && after.gasUsed.None?
                       && after.effectiveGasPrice.None? && after.receiptStatus.None?
        else after.blockNumber == before.blockNumber && after.minedAt == before.minedAt
             && after.gasUsed == before.gasUsed
             && after.effectiveGasPrice == before.effectiveGasPrice && after.receiptStatus == before.receiptStatus)
  }

  ghost predicate RowsEffect(before: Rows, after: Rows, mb: MinedBlock) {
    && (forall h :: h in after <==> h in before || exists t | t in mb.transactions :: t.hash == h)
    && (forall t | t in mb.transactions :: IsMinedRow(before, after, mb, t))
    && (forall h | h in before && h !in HashSet(mb.transactions) :: IsOtherRow(before[h], after[h], mb))
  }

  lemma FindDistinctTx(list: seq<Tx>, t: Tx)
    requires DistinctHashes(list) && t in list
    ensures FindTx(list, t.hash) == t
  {
    var u := FindTx(list, t.hash);
    var i, j :| 0 <= i < |list| && 0 <= j < |list| && list[i] == t && list[j] == u;
    assert list[i].hash == list[j].hash;
  }

  /** Promotion and replacement, on rows already undone. */
  lemma PromoteRow(before: Rows, undone: Rows, mb: MinedBlock, t: Tx)
    requires undone == RevertTxsOf(before, mb.block.number)
    requires DistinctHashes(mb.transactions) && t in mb.transactions
    ensures IsMinedRow(before, MarkReplaced(PromoteTxs(undone, mb), mb.transactions), mb, t)
  {
    FindDistinctTx(mb.transactions, t);
    var promoted := PromoteTxs(undone, mb);
    assert t.hash in HashSet(mb.transactions);
    assert promoted[t.hash] == MinedRow(undone, mb, t);
  }

  lemma OtherRow(before: Rows, undone: Rows, mb: MinedBlock, h: Hash)
    requires undone == RevertTxsOf(before, mb.block.number)
    requires h in before && h !in HashSet(mb.transactions)
    ensures IsOtherRow(before[h], MarkReplaced(PromoteTxs(undone, mb), mb.transactions)[h], mb)
  {
    var promoted := PromoteTxs(undone, mb);
    assert promoted[h] == undone[h];
    assert forall t | t in mb.transactions :: t.hash in HashSet(mb.transactions);
  }

  lemma PromoteAll(before: Rows, undone: Rows, mb: MinedBlock)
    requires undone == RevertTxsOf(before, mb.block.number) && DistinctHashes(mb.transactions)
    ensures RowsEffect(before, MarkReplaced(PromoteTxs(undone, mb), mb.transactions), mb)
  {
    forall t | t in mb.transactions
      ensures IsMinedRow(before, MarkReplaced(PromoteTxs(undone, mb), mb.transactions), mb, t)
    {
      PromoteRow(before, undone, mb, t);
    }
    forall h | h in before && h !in HashSet(mb.transactions)
      ensures IsOtherRow(before[h], MarkReplaced(PromoteTxs(undone, mb), mb.transactions)[h], mb)
    {
      OtherRow(before, undone, mb, h);
    }
  }

  /** With no transactions there is nothing to promote and nothing to replace. */
  lemma PromoteNone(before: Rows, mb: MinedBlock)
    requires mb.transactions == []
    ensures RowsEffect(before, RevertTxsOf(before, mb.block.number), mb)
  {
  }

  /** No row is mined at a height without a block, so the undo is the same either way. */
  lemma UndoneRows(db: Db, n: nat)
    requires Consistent(db)
    ensures UndoBlock(db, n).txs == RevertTxsOf(db.txs, n)
  {
    if n !in db.blocks {
      assert RevertTxsOf(db.txs, n) == db.txs;
    }
  }

  lemma RecordedRows(db: Db, mb: MinedBlock, now: Time, recorded: Db)
    requires Consistent(db) && RecordBlock(db, mb, now) == Ok(recorded)
    ensures recorded.txs == RevertTxsOf(db.txs, mb.block.number)
  {
    UndoneRows(db, mb.block.number);
  }

  lemma PromotedRows(db: Db, mb: MinedBlock, now: Time, promoted: Db)
    requires UpsertMined(db, mb, now) == Ok(promoted)
    ensures DistinctHashes(mb.transactions)
    ensures promoted.txs == MarkReplaced(PromoteTxs(db.txs, mb), mb.transactions)
  {
  }

  lemma TransfersKeepRows(promoted: Db, mb: MinedBlock, now: Time, after: Db)
    requires if mb.transfers == [] then after == promoted
             else InsertTransfers(promoted, mb.block.number, mb.transfers, now) == Ok(after)
    ensures after.txs == promoted.txs
  {
  }

  /** Every row after a committed block: those of its transactions are mined with their receipts, the
      old ones of its height are pending again, and whatever is pending with the sender and nonce of
      one of its transactions is replaced. The contracts are those from before and the created ones. */
  lemma SaveBlockRows(db: Db, mb: MinedBlock, now: Time, after: Db)
    requires Consistent(db) && SaveBlock(db, mb, now) == Ok(after)
    requires mb.block.number in db.blocks ==> db.blocks[mb.block.number].block.hash != mb.block.hash
    ensures RowsEffect(db.txs, after.txs, mb)
    ensures forall a :: a in after.accounts && after.accounts[a].isContract <==>
      (a in db.accounts && db.accounts[a].isContract) || exists t | t in mb.transactions :: t.created == a && a != ""
  {
    AccountRows.SaveBlockAccounts(db, mb, now, after);
    var recorded := RecordBlock(db, mb, now).value;
    RecordedRows(db, mb, now, recorded);
    if mb.transactions == [] {
      TransfersKeepRows(recorded, mb, now, after);
      PromoteNone(db.txs, mb);
    } else {
      var promoted := UpsertMined(recorded, mb, now).value;
      PromotedRows(recorded, mb, now, promoted);
      TransfersKeepRows(promoted, mb, now, after);
      PromoteAll(db.txs, recorded.txs, mb);
    }
  }

  /** After a committed block no row is still pending with the sender and nonce of one of its
      transactions. */
  lemma NoPendingRival(db: Db, mb: MinedBlock, now: Time, after: Db, t: Tx, h: Hash)
    requires Consistent(db) && SaveBlock(db, mb, now) == Ok(after) && !AlreadyStored(db, mb)
    requires t in mb.transactions && h in after.txs
    requires after.txs[h].from == t.from && after.txs[h].payload.nonce == t.payload.nonce
    ensures after.txs[h].status != Pending
  {
    SaveBlockRows(db, mb, now, after);
    RivalIsNotPending(db.txs, after.txs, mb, t, h);
  }

  lemma RivalIsNotPending(before: Rows, after: Rows, mb: MinedBlock, t: Tx, h: Hash)
    requires RowsEffect(before, after, mb) && t in mb.transactions && h in after
    requires after[h].from == t.from && after[h].payload.nonce == t.payload.nonce
    ensures after[h].status != Pending
  {
    if h in HashSet(mb.transactions) {
      var u :| u in mb.transactions && u.hash == h;
      assert IsMinedRow(before, after, mb, u);
    } else {
      assert IsOtherRow(before[h], after[h], mb);
    }
  }

  // ----- A block and its replacement -----

  /** A transaction of the list has the row's sender and nonce. */
  ghost predicate HasRival(list: seq<Tx>, row: TxRow) {
    exists t | t in list :: t.from == row.from && t.payload.nonce == row.payload.nonce
  }

  /** The row of a transaction first seen in a block. */
  function NewRow(t: Tx, minedAt: Time): TxRow {
    TxRow(t.from, OrNull(t.to), t.payload, minedAt, Pending, None, None, None, None, None, None)
  }

  /** The row as it stood before the first block, or as that block inserted it, taken back to pending; the
      created contract stays, and a rival in the second block replaces it. */
  ghost predicate IsUndoneRow(before: Rows, after: TxRow, first: MinedBlock, second: MinedBlock, t: Tx) {
    var was := if t.hash in before then before[t.hash] else NewRow(t, first.block.minedAt);
    after == TxRow(
      was.from, was.to, was.payload, was.timestamp,
      if HasRival(second.transactions, was) then Replaced else Pending, None, None, None, None, None, OrNull(t.created))
  }

  /** Two blocks at one height, saved one after the other. */
  ghost predicate Replaces(db: Db, first: MinedBlock, mid: Db, second: MinedBlock, after: Db, now: Time, later: Time) {
    && Consistent(db) && !AlreadyStored(db, first) && SaveBlock(db, first, now) == Ok(mid)
    && !AlreadyStored(mid, second) && SaveBlock(mid, second, later) == Ok(after)
    && second.block.number == first.block.number
  }

  lemma BothEffects(db: Db, first: MinedBlock, mid: Db, second: MinedBlock, after: Db, now: Time, later: Time)
    requires Replaces(db, first, mid, second, after, now, later)
    ensures RowsEffect(db.txs, mid.txs, first) && RowsEffect(mid.txs, after.txs, second)
  {
    SaveBlockRows(db, first, now, mid);
    SaveBlockKeeps(db, first, now, mid);
    SaveBlockRows(mid, second, later, after);
  }

  /** What a replacement block undoes: whatever a transaction's row was before the first block, if the
      second does not list it the row is pending again, or replaced by a rival in the second. */
  lemma ReplacementUndoes(
    db: Db, first: MinedBlock, mid: Db, second: MinedBlock, after: Db, now: Time, later: Time, t: Tx)
    requires Replaces(db, first, mid, second, after, now, later)
    requires t in first.transactions && t.hash !in HashSet(second.transactions)
    ensures t.hash in after.txs && IsUndoneRow(db.txs, after.txs[t.hash], first, second, t)
  {
    BothEffects(db, first, mid, second, after, now, later);
    UndoneRow(db.txs, mid.txs, after.txs, first, second, t);
  }

  lemma UndoneRow(before: Rows, mid: Rows, after: Rows, first: MinedBlock, second: MinedBlock, t: Tx)
    requires RowsEffect(before, mid, first) && RowsEffect(mid, after, second)
    requires second.block.number == first.block.number
    requires t in first.transactions && t.hash !in HashSet(second.transactions)
    ensures t.hash in after && IsUndoneRow(before, after[t.hash], first, second, t)
  {
    assert IsMinedRow(before, mid, first, t);
    assert IsOtherRow(mid[t.hash], after[t.hash], second);
  }

  /** So under an empty block a transaction that was pending is that same pending row again, but for the
      created contract. */
  lemma EmptyBlockUndoes(
    db: Db, first: MinedBlock, mid: Db, second: MinedBlock, after: Db, now: Time, later: Time, t: Tx)
    requires Replaces(db, first, mid, second, after, now, later) && second.transactions == []
    requires t in first.transactions && t.hash in db.txs && db.txs[t.hash].status == Pending
    ensures t.hash in after.txs && after.txs[t.hash] == db.txs[t.hash].(created := OrNull(t.created))
  {
    ReplacementUndoes(db, first, mid, second, after, now, later, t);
    assert TxRowOk(db.txs[t.hash], db.blocks, db.accounts.Keys);
  }

  /** What it does not undo: a pending row replaced by a rival in the first block stays replaced. */
  lemma ReplacedStays(
    db: Db, first: MinedBlock, mid: Db, second: MinedBlock, after: Db, now: Time, later: Time, h: Hash)
    requires Replaces(db, first, mid, second, after, now, later)
    requires h in db.txs && db.txs[h].status == Pending && HasRival(first.transactions, db.txs[h])
    requires h !in HashSet(first.transactions) && h !in HashSet(second.transactions)
    ensures h in after.txs && after.txs[h] == db.txs[h].(status := Replaced)
  {
    BothEffects(db, first, mid, second, after, now, later);
    assert TxRowOk(db.txs[h], db.blocks, db.accounts.Keys);
    assert IsOtherRow(db.txs[h], mid.txs[h], first);
    assert IsOtherRow(mid.txs[h], after.txs[h], second);
  }
}
