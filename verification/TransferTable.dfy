/** Token transfers are inserted with DO NOTHING and deleted by block number; here the
    table is compared with the transfers of the ingested chain. */
module TransferTable {
  import opened Prelude
  import opened Schema
  import opened Ledger
  import opened LedgerInvariant
  import opened Commit
  import opened Reorg

  /** The rows a block contributes: its transfers, the first one of a key winning. */
  function BlockRows(mb: MinedBlock): map<TransferKey, TransferRow> {
    InsertRows(map[], mb.block.number, mb.transfers)
  }

  ghost predicate HasRow(table: map<TransferKey, TransferRow>, k: TransferKey, row: TransferRow) {
    k in table && table[k] == row
  }

  ghost predicate ChainHasRow(chain: Chain, k: TransferKey, row: TransferRow) {
    row.blockNumber in chain && HasRow(BlockRows(chain[row.blockNumber]), k, row)
  }

  /** The stored rows are exactly the transfers of the chain, with their block numbers. */
  ghost predicate TransfersTrack(db: Db, chain: Chain) {
    forall k, row :: HasRow(db.transfers, k, row) <==> ChainHasRow(chain, k, row)
  }

  /** Every decoded transfer belongs to a transaction of its block. */
  predicate TransfersBelong(mb: MinedBlock) {
    forall tt | tt in mb.transfers :: tt.txHash in HashSet(mb.transactions)
  }

  ghost predicate ChainOk(chain: Chain) {
    forall n | n in chain :: chain[n].block.number == n && TransfersBelong(chain[n])
  }

  ghost predicate EventsOk(events: seq<Event>) {
    && (forall i | 0 <= i < |events| && events[i].Some? :: TransfersBelong(events[i].value))
    && (forall i, j | 0 <= i < j < |events| && events[i].Some? && events[j].Some? ::
          events[i].value.block.number < events[j].value.block.number)
  }

  /** No transfer arrives at a lower height than the one it is stored at. */
  ghost predicate NoneMovesDown(db: Db, events: seq<Event>) {
    forall i, k | 0 <= i < |events| && events[i].Some?
                  && k in BlockRows(events[i].value) && k in db.transfers ::
      db.transfers[k].blockNumber <= events[i].value.block.number
  }

  // ----- Rows of one block -----

  lemma {:induction false} InsertRowsAgree(
    a: map<TransferKey, TransferRow>, b: map<TransferKey, TransferRow>, n: nat, list: seq<Transfer>, k: TransferKey)
    requires k !in a && k !in b
    ensures k in InsertRows(a, n, list) <==> k in InsertRows(b, n, list)
    ensures k in InsertRows(a, n, list) ==> InsertRows(a, n, list)[k] == InsertRows(b, n, list)[k]
    decreases |list|
  {
    if list != [] {
      var tt := list[0];
      var row := TransferRow(n, tt.token, tt.from, tt.to, tt.amount);
      var a' := if Key(tt) in a then a else a[Key(tt) := row];
      var b' := if Key(tt) in b then b else b[Key(tt) := row];
      if Key(tt) == k {
        InsertRowsEffect(a', n, list[1..], k);
        InsertRowsEffect(b', n, list[1..], k);
      } else {
        InsertRowsAgree(a', b', n, list[1..], k);
      }
    }
  }

  /** Inserting a block's transfers adds the block's rows whose keys are free. */
  lemma InsertedRows(table: map<TransferKey, TransferRow>, mb: MinedBlock, k: TransferKey, row: TransferRow)
    ensures HasRow(InsertRows(table, mb.block.number, mb.transfers), k, row) <==>
            if k in table then HasRow(table, k, row) else HasRow(BlockRows(mb), k, row)
  {
    InsertRowsEffect(table, mb.block.number, mb.transfers, k);
    if k !in table {
      InsertRowsAgree(table, map[], mb.block.number, mb.transfers, k);
    }
  }

  lemma BlockRowFacts(mb: MinedBlock, k: TransferKey)
    requires k in BlockRows(mb)
    ensures BlockRows(mb)[k].blockNumber == mb.block.number
    ensures TransfersBelong(mb) ==> k.txHash in HashSet(mb.transactions)
  {
    InsertRowsEffect(map[], mb.block.number, mb.transfers, k);
  }

  // ----- Every run -----

  /** The key is taken by a row of another height, which DO NOTHING respects. */
  ghost predicate Elsewhere(table: map<TransferKey, TransferRow>, key: TransferKey, n: nat) {
    key in table && table[key].blockNumber != n
  }

  /** When height n was last written, the key was stored at another height. */
  ghost predicate Blocked(states: seq<Db>, events: seq<Event>, k: nat, key: TransferKey, n: nat)
    requires k <= |events| < |states|
  {
    exists j | 0 <= j < k ::
      Writes(events[j], n) && Untouched(events, j + 1, k, n) && Elsewhere(states[j].transfers, key, n)
  }

  /** A row is stored exactly when the chain has it and its key was free when its height was written. */
  ghost predicate StoredExactly(states: seq<Db>, events: seq<Event>, chain: Chain, k: nat)
    requires k <= |events| < |states|
  {
    forall key, row :: HasRow(states[k].transfers, key, row) <==>
      ChainHasRow(ChainAt(chain, events, k), key, row) && !Blocked(states, events, k, key, row.blockNumber)
  }

  lemma BlockedStep(states: seq<Db>, events: seq<Event>, k: nat, key: TransferKey, n: nat)
    requires k < |events| < |states|
    ensures Blocked(states, events, k + 1, key, n) <==>
      if Writes(events[k], n) then Elsewhere(states[k].transfers, key, n) else Blocked(states, events, k, key, n)
  {
    if Blocked(states, events, k + 1, key, n) {
      var j :| 0 <= j < k + 1 && Writes(events[j], n) && Untouched(events, j + 1, k + 1, n)
        && Elsewhere(states[j].transfers, key, n);
      if j < k {
        assert !Writes(events[k], n);
        assert Untouched(events, j + 1, k, n);
      }
    }
    if Writes(events[k], n) {
      assert Untouched(events, k + 1, k + 1, n);
    } else if Blocked(states, events, k, key, n) {
      var j :| 0 <= j < k && Writes(events[j], n) && Untouched(events, j + 1, k, n)
        && Elsewhere(states[j].transfers, key, n);
      assert Untouched(events, j + 1, k + 1, n);
    }
  }

  /** What one written block does to a key: rows of other heights stay, the key's row of this height is
      the block's if the key is free. */
  lemma RowsOfStep(before: map<TransferKey, TransferRow>, mb: MinedBlock, key: TransferKey, row: TransferRow)
    ensures var after := InsertRows(RemoveTransfersOf(before, mb.block.number), mb.block.number, mb.transfers);
      HasRow(after, key, row) <==>
        if row.blockNumber != mb.block.number then HasRow(before, key, row)
        else HasRow(BlockRows(mb), key, row) && !Elsewhere(before, key, mb.block.number)
  {
    InsertedRows(RemoveTransfersOf(before, mb.block.number), mb, key, row);
    if key in BlockRows(mb) { BlockRowFacts(mb, key); }
  }

  /** The transfers of the block's height are deleted and its own inserted. */
  ghost predicate Rewritten(db: Db, after: Db, mb: MinedBlock) {
    after.transfers == InsertRows(RemoveTransfersOf(db.transfers, mb.block.number), mb.block.number, mb.transfers)
  }

  lemma WrittenStored(states: seq<Db>, events: seq<Event>, chain: Chain, k: nat)
    requires k < |events| < |states| && events[k].Some?
    requires Rewritten(states[k], states[k + 1], events[k].value)
    requires StoredExactly(states, events, chain, k)
    ensures StoredExactly(states, events, chain, k + 1)
  {
    var mb := events[k].value;
    var table, next := states[k + 1].transfers, ChainAt(chain, events, k + 1);
    forall key, row ensures HasRow(table, key, row) <==>
      ChainHasRow(next, key, row) && !Blocked(states, events, k + 1, key, row.blockNumber)
    {
      RowsOfStep(states[k].transfers, mb, key, row);
      BlockedStep(states, events, k, key, row.blockNumber);
    }
  }

  lemma QuietStored(states: seq<Db>, events: seq<Event>, chain: Chain, k: nat)
    requires k < |events| < |states| && events[k].None? && states[k + 1].transfers == states[k].transfers
    requires StoredExactly(states, events, chain, k)
    ensures StoredExactly(states, events, chain, k + 1)
  {
    var table, next := states[k + 1].transfers, ChainAt(chain, events, k + 1);
    forall key, row ensures HasRow(table, key, row) <==>
      ChainHasRow(next, key, row) && !Blocked(states, events, k + 1, key, row.blockNumber)
    {
      BlockedStep(states, events, k, key, row.blockNumber);
    }
  }

  lemma StepOfRun(states: seq<Db>, events: seq<Event>, k: nat)
    requires IsTableRun(states, events) && k < |events|
    ensures if events[k].None? then states[k + 1].transfers == states[k].transfers
            else Rewritten(states[k], states[k + 1], events[k].value)
  {
    if events[k].None? { assert Quiet(states[k], states[k + 1]); }
    else { assert BlockEffect(states[k], states[k + 1], events[k].value); }
  }

  lemma {:induction false} RunStored(states: seq<Db>, events: seq<Event>, chain: Chain, k: nat)
    requires IsTableRun(states, events) && k <= |events| && TransfersTrack(states[0], chain)
    ensures StoredExactly(states, events, chain, k)
  {
    if k > 0 {
      RunStored(states, events, chain, k - 1);
      StepOfRun(states, events, k - 1);
      if events[k - 1].Some? {
        WrittenStored(states, events, chain, k - 1);
      } else {
        QuietStored(states, events, chain, k - 1);
      }
    }
  }

  /** No transfer of the resulting chain found its key stored at another height. */
  ghost predicate NoneBlocked(states: seq<Db>, events: seq<Event>, chain: Chain)
    requires |events| < |states|
  {
    forall key, row | ChainHasRow(ChainAt(chain, events, |events|), key, row) ::
      !Blocked(states, events, |events|, key, row.blockNumber)
  }

  /** Token transfers follow the chain, exactly. After any run of the writers, with any number of
      reorganisations, every stored row is a transfer of the resulting chain, and the stored rows are
      all of them if and only if none found its key stored at another height when its height was last
      written. */
  lemma TransfersFollowEveryRun(states: seq<Db>, ops: seq<Op>, chain: Chain)
    requires IsRun(states, ops) && Consistent(states[0]) && TransfersTrack(states[0], chain)
    ensures var final := ChainAt(chain, Events(states, ops), |ops|);
      && (forall key, row | HasRow(states[|ops|].transfers, key, row) :: ChainHasRow(final, key, row))
      && (TransfersTrack(states[|ops|], final) <==> NoneBlocked(states, Events(states, ops), chain))
  {
    RunIsTableRun(states, ops);
    RunStored(states, Events(states, ops), chain, |ops|);
    StoredTracks(states, Events(states, ops), chain);
  }

  lemma StoredTracks(states: seq<Db>, events: seq<Event>, chain: Chain)
    requires |states| == |events| + 1 && StoredExactly(states, events, chain, |events|)
    ensures TransfersTrack(states[|events|], ChainAt(chain, events, |events|)) <==> NoneBlocked(states, events, chain)
  {
    var db, final := states[|events|], ChainAt(chain, events, |events|);
    if NoneBlocked(states, events, chain) {
      assert forall key, row :: HasRow(db.transfers, key, row) <==> ChainHasRow(final, key, row);
    }
    if TransfersTrack(db, final) {
      forall key, row | ChainHasRow(final, key, row) ensures !Blocked(states, events, |events|, key, row.blockNumber) {
        assert HasRow(db.transfers, key, row);
      }
    }
  }

  // ----- One ascending pass -----

  lemma {:induction false} ChainAtOk(chain: Chain, events: seq<Event>, k: nat)
    requires ChainOk(chain) && EventsOk(events) && k <= |events|
    ensures ChainOk(ChainAt(chain, events, k))
  {
    if k > 0 { ChainAtOk(chain, events, k - 1); }
  }

  /** A key found elsewhere was stored above from the start, or its transaction is in two blocks. */
  lemma BlockedMovedDown(states: seq<Db>, events: seq<Event>, chain: Chain, j: nat, key: TransferKey, n: nat)
    requires IsTableRun(states, events) && ChainOk(chain) && EventsOk(events) && j < |events|
    requires UniqueTxs(ChainAt(chain, events, |events|)) && TransfersTrack(states[0], chain)
    requires Writes(events[j], n) && Untouched(events, j + 1, |events|, n) && Elsewhere(states[j].transfers, key, n)
    requires key in BlockRows(events[j].value)
    ensures !NoneMovesDown(states[0], events)
  {
    var row := states[j].transfers[key];
    var b := row.blockNumber;
    RunStored(states, events, chain, j);
    assert HasRow(states[j].transfers, key, row);
    assert ChainHasRow(ChainAt(chain, events, j), key, row);
    if b < n {
      TwoBlocksOf(events, chain, j, key, n, b);
    } else {
      assert Untouched(events, 0, j, b);
      UntouchedSame(chain, events, 0, j, b);
      assert ChainHasRow(chain, key, row);
      assert HasRow(states[0].transfers, key, row);
    }
  }

  lemma TwoBlocksOf(events: seq<Event>, chain: Chain, j: nat, key: TransferKey, n: nat, b: nat)
    requires ChainOk(chain) && EventsOk(events) && j < |events| && b < n
    requires Writes(events[j], n) && Untouched(events, j + 1, |events|, n) && key in BlockRows(events[j].value)
    requires b in ChainAt(chain, events, j) && key in BlockRows(ChainAt(chain, events, j)[b])
    ensures !UniqueTxs(ChainAt(chain, events, |events|))
  {
    var final := ChainAt(chain, events, |events|);
    ChainAtOk(chain, events, j);
    assert Untouched(events, j, |events|, b);
    UntouchedSame(chain, events, j, |events|, b);
    EventStays(chain, events, j, |events|, n);
    BlockRowFacts(ChainAt(chain, events, j)[b], key);
    BlockRowFacts(events[j].value, key);
    assert Contains(final, key.txHash, b) && Contains(final, key.txHash, n);
  }

  lemma RowAfter(db: Db, after: Db, mb: MinedBlock, key: TransferKey)
    requires BlockEffect(db, after, mb)
    ensures key in db.transfers && db.transfers[key].blockNumber != mb.block.number ==>
      key in after.transfers && after.transfers[key] == db.transfers[key]
  {
    var rest := RemoveTransfersOf(db.transfers, mb.block.number);
    InsertRowsEffect(rest, mb.block.number, mb.transfers, key);
  }

  /** A row above is still there when event i arrives below it. */
  lemma {:induction false} StaysUp(states: seq<Db>, events: seq<Event>, key: TransferKey, i: nat, k: nat)
    requires IsTableRun(states, events) && EventsOk(events) && k <= i < |events| && events[i].Some?
    requires key in states[0].transfers
             && states[0].transfers[key].blockNumber > events[i].value.block.number
    ensures key in states[k].transfers && states[k].transfers[key] == states[0].transfers[key]
  {
    if k > 0 {
      StaysUp(states, events, key, i, k - 1);
      if events[k - 1].Some? {
        RowAfter(states[k - 1], states[k], events[k - 1].value, key);
      } else {
        assert Quiet(states[k - 1], states[k]);
      }
    }
  }

  lemma MovedDownIsBlocked(states: seq<Db>, events: seq<Event>, chain: Chain, i: nat, key: TransferKey)
    requires IsTableRun(states, events) && EventsOk(events) && i < |events| && events[i].Some?
    requires key in BlockRows(events[i].value) && key in states[0].transfers
    requires states[0].transfers[key].blockNumber > events[i].value.block.number
    ensures !NoneBlocked(states, events, chain)
  {
    var n, row := events[i].value.block.number, BlockRows(events[i].value)[key];
    assert Writes(events[i], n) && Untouched(events, i + 1, |events|, n);
    EventStays(chain, events, i, |events|, n);
    BlockRowFacts(events[i].value, key);
    StaysUp(states, events, key, i, i);
    assert Elsewhere(states[i].transfers, key, n);
    assert ChainHasRow(ChainAt(chain, events, |events|), key, row);
    assert Blocked(states, events, |events|, key, row.blockNumber);
  }

  /** In one ascending pass of block ingestion, mixed with any other writers, that is: no transfer
      arrived at a lower height than the one it was stored at. */
  lemma TransfersFollowChain(states: seq<Db>, ops: seq<Op>, chain: Chain)
    requires IsRun(states, ops) && Consistent(states[0])
    requires ChainOk(chain) && EventsOk(Events(states, ops))
    requires UniqueTxs(ChainAt(chain, Events(states, ops), |ops|))
    requires TransfersTrack(states[0], chain)
    ensures TransfersTrack(states[|ops|], ChainAt(chain, Events(states, ops), |ops|)) <==>
            NoneMovesDown(states[0], Events(states, ops))
  {
    RunIsTableRun(states, ops);
    TransfersFollowEveryRun(states, ops, chain);
    AscendingBlocked(states, Events(states, ops), chain);
  }

  lemma AscendingBlocked(states: seq<Db>, events: seq<Event>, chain: Chain)
    requires IsTableRun(states, events) && ChainOk(chain) && EventsOk(events)
    requires UniqueTxs(ChainAt(chain, events, |events|))
    requires TransfersTrack(states[0], chain)
    ensures NoneBlocked(states, events, chain) <==> NoneMovesDown(states[0], events)
  {
    var final := ChainAt(chain, events, |events|);
    if !NoneMovesDown(states[0], events) {
      var i, key :| 0 <= i < |events| && events[i].Some? && key in BlockRows(events[i].value)
        && key in states[0].transfers
        && states[0].transfers[key].blockNumber > events[i].value.block.number;
      MovedDownIsBlocked(states, events, chain, i, key);
    }
    if !NoneBlocked(states, events, chain) {
      var key, row :| ChainHasRow(final, key, row) && Blocked(states, events, |events|, key, row.blockNumber);
      var n := row.blockNumber;
      var j :| 0 <= j < |events| && Writes(events[j], n) && Untouched(events, j + 1, |events|, n)
        && Elsewhere(states[j].transfers, key, n);
      EventStays(chain, events, j, |events|, n);
      BlockedMovedDown(states, events, chain, j, key, n);
    }
  }

  /** After any run of the writers, whatever became of the rest: the transaction of a stored transfer is
      mined at the transfer's height if and only if the chain lists it there and no later block took it.
      Where every block's transfers are of its own transactions, the chain always lists it. */
  lemma TransferCarriesItsBlock(states: seq<Db>, ops: seq<Op>, chain: Chain, key: TransferKey)
    requires IsRun(states, ops) && Consistent(states[0])
    requires Tracks(states[0], chain) && TransfersTrack(states[0], chain) && key in states[|ops|].transfers
    ensures var events := Events(states, ops);
      var final, b := ChainAt(chain, events, |ops|), states[|ops|].transfers[key].blockNumber;
      && (MinedAt(states[|ops|], key.txHash, b) <==>
            Contains(final, key.txHash, b) && !TakenLater(events, |ops|, key.txHash, b))
      && (ChainOk(final) ==> Contains(final, key.txHash, b))
  {
    var events := Events(states, ops);
    RunIsTableRun(states, ops);
    RunExactly(states, events, chain, |ops|);
    RunStored(states, events, chain, |ops|);
    StoredIsListed(states[|ops|], ChainAt(chain, events, |ops|), key, states, events, chain);
  }

  lemma StoredIsListed(
    db: Db, final: Chain, key: TransferKey, states: seq<Db>, events: seq<Event>, chain: Chain)
    requires |states| == |events| + 1 && db == states[|events|] && final == ChainAt(chain, events, |events|)
    requires StoredExactly(states, events, chain, |events|) && key in db.transfers
    ensures ChainOk(final) ==> Contains(final, key.txHash, db.transfers[key].blockNumber)
  {
    var row := db.transfers[key];
    assert HasRow(db.transfers, key, row);
    if ChainOk(final) { ChainRowListed(final, key, row); }
  }

  lemma ChainRowListed(chain: Chain, key: TransferKey, row: TransferRow)
    requires ChainOk(chain) && ChainHasRow(chain, key, row)
    ensures Contains(chain, key.txHash, row.blockNumber)
  {
    BlockRowFacts(chain[row.blockNumber], key);
  }

  /** So where both tables follow the chain, every transfer carries its transaction's block number. */
  lemma TrackedTransferCarries(db: Db, chain: Chain, key: TransferKey)
    requires Tracks(db, chain) && TransfersTrack(db, chain) && ChainOk(chain) && key in db.transfers
    ensures MinedAt(db, key.txHash, db.transfers[key].blockNumber)
  {
    var row := db.transfers[key];
    assert HasRow(db.transfers, key, row);
    ChainRowListed(chain, key, row);
  }
}
