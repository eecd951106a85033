/** Exactly which blocks the store accepts: SaveBlock either commits or names the constraint
    that rolled it back. */
module Commit {
  import opened Prelude
  import opened Schema
  import opened Ledger
  import opened LedgerInvariant

  ghost predicate AllWellFormed(addresses: set<Address>) {
    forall a | a in addresses && a != "" :: WellFormed(a)
  }

  ghost predicate TxsAcceptable(list: seq<Tx>, known: set<Hash>) {
    && AllWellFormed(CreatedContracts(list))
    && DistinctHashes(list)
    && forall t | t in list :: t.hash in known || t.from != ""
  }

  ghost predicate TransfersAcceptable(
    list: seq<Transfer>, known: set<Hash>, stored: map<TransferKey, TransferRow>, n: nat)
  {
    forall tt | tt in list ::
      && tt.txHash in known
      && ((Key(tt) in stored && stored[Key(tt)].blockNumber != n) || "" !in {tt.token, tt.from, tt.to})
  }

  /** What the statements check one after another. */
  ghost predicate Accepted(db: Db, mb: MinedBlock) {
    && !HashTakenElsewhere(db, mb.block)
    && AllWellFormed(TxAddresses(mb.transactions) + TransferAddresses(mb.transfers))
    && TxsAcceptable(mb.transactions, db.txs.Keys)
    && TransfersAcceptable(
         mb.transfers, db.txs.Keys + HashSet(mb.transactions), db.transfers, mb.block.number)
  }

  /** Absent, or 0x and 40 hexadecimal digits. */
  predicate IsAddress(a: Address) {
    a == "" || (|a| == 42 && a[..2] == "0x" && forall i | 2 <= i < 42 :: a[i] in "0123456789abcdefABCDEF")
  }

  /** A transfer that names a listed or stored transaction, and three accounts unless its key is stored at
      another height. */
  ghost predicate Resolves(db: Db, mb: MinedBlock, tt: Transfer) {
    var key := TransferKey(tt.txHash, tt.logIndex);
    && (tt.txHash in db.txs || exists t | t in mb.transactions :: t.hash == tt.txHash)
    && ((key in db.transfers && db.transfers[key].blockNumber != mb.block.number)
        || (tt.token != "" && tt.from != "" && tt.to != ""))
  }

  /** The hash is free, the addresses are addresses, no transaction is listed twice, every new
      transaction has a sender, and every new transfer names a known transaction and three accounts. */
  ghost predicate Acceptable(db: Db, mb: MinedBlock) {
    && (forall n | n in db.blocks && n != mb.block.number :: db.blocks[n].block.hash != mb.block.hash)
    && (forall t | t in mb.transactions :: IsAddress(t.from) && IsAddress(t.to) && IsAddress(t.created))
    && (forall tt | tt in mb.transfers :: IsAddress(tt.token) && IsAddress(tt.from) && IsAddress(tt.to))
    && (forall i, j | 0 <= i < j < |mb.transactions| :: mb.transactions[i].hash != mb.transactions[j].hash)
    && (forall t | t in mb.transactions :: t.hash in db.txs || t.from != "")
    && (forall tt | tt in mb.transfers :: Resolves(db, mb, tt))
  }

  lemma HexDigits(c: char)
    ensures HexDigit(c) <==> c in "0123456789abcdefABCDEF"
  {
    assert "0123456789abcdefABCDEF" == "0123456789" + "abcdef" + "ABCDEF";
    assert '0' <= c <= '9' <==> c in "0123456789";
    assert 'a' <= c <= 'f' <==> c in "abcdef";
    assert 'A' <= c <= 'F' <==> c in "ABCDEF";
  }

  lemma AddressShape(a: Address)
    ensures a != "" ==> (WellFormed(a) <==> IsAddress(a))
  {
    if |a| == 42 {
      assert a[..2] == "0x" <==> a[0] == '0' && a[1] == 'x';
      forall i | 2 <= i < 42 ensures HexDigit(a[i]) <==> a[i] in "0123456789abcdefABCDEF" { HexDigits(a[i]); }
    }
  }

  lemma AddressesShaped(addresses: set<Address>)
    ensures AllWellFormed(addresses) <==> forall a | a in addresses :: IsAddress(a)
  {
    forall a | a in addresses ensures a != "" ==> (WellFormed(a) <==> IsAddress(a)) { AddressShape(a); }
  }

  lemma ListedAddresses(list: seq<Tx>, transfers: seq<Transfer>)
    ensures AllWellFormed(TxAddresses(list) + TransferAddresses(transfers)) <==>
      && (forall t | t in list :: IsAddress(t.from) && IsAddress(t.to))
      && (forall tt | tt in transfers :: IsAddress(tt.token) && IsAddress(tt.from) && IsAddress(tt.to))
    ensures AllWellFormed(CreatedContracts(list)) <==> forall t | t in list :: IsAddress(t.created)
  {
    AddressesShaped(TxAddresses(list) + TransferAddresses(transfers));
    AddressesShaped(CreatedContracts(list));
    forall t | t in list
      ensures t.from in TxAddresses(list) && t.to in TxAddresses(list)
      ensures t.created != "" ==> t.created in CreatedContracts(list)
    {
    }
    forall tt | tt in transfers ensures {tt.token, tt.from, tt.to} <= TransferAddresses(transfers) {}
  }

  lemma ListedHashes(db: Db, mb: MinedBlock)
    ensures TransfersAcceptable(
      mb.transfers, db.txs.Keys + HashSet(mb.transactions), db.transfers, mb.block.number)
      <==> forall tt | tt in mb.transfers :: Resolves(db, mb, tt)
  {
  }

  lemma AcceptedExactly(db: Db, mb: MinedBlock)
    ensures Accepted(db, mb) <==> Acceptable(db, mb)
  {
    ListedAddresses(mb.transactions, mb.transfers);
    ListedHashes(db, mb);
  }

  lemma EmptyIsNoAccount(db: Db)
    requires Consistent(db)
    ensures "" !in db.accounts
  {
    assert !WellFormed("");
  }

  lemma UpsertAccepts(accounts: map<Address, AccountRow>, addresses: set<Address>, seen: Time)
    ensures UpsertAccounts(accounts, addresses, seen).Ok? <==> AllWellFormed(addresses)
  {
    if a :| a in addresses && a != "" && !WellFormed(a) {
      assert a in addresses - {""};
    }
  }

  lemma UndoneTables(db: Db, n: nat)
    requires Consistent(db)
    ensures var undone := UndoBlock(db, n);
      && undone.blocks == db.blocks && undone.accounts == db.accounts
      && undone.txs.Keys == db.txs.Keys
      && undone.transfers == RemoveTransfersOf(db.transfers, n)
  {
    UndoKeeps(db, n);
    if n !in db.blocks {
      assert RemoveTransfersOf(db.transfers, n) == db.transfers;
    }
  }

  lemma RecordAccepts(db: Db, mb: MinedBlock, now: Time)
    requires Consistent(db)
    ensures RecordBlock(db, mb, now).Ok? <==>
      !HashTakenElsewhere(db, mb.block)
      && AllWellFormed(TxAddresses(mb.transactions) + TransferAddresses(mb.transfers))
    ensures RecordBlock(db, mb, now).Ok? ==>
      var after := RecordBlock(db, mb, now).value;
      && after.txs.Keys == db.txs.Keys
      && after.transfers == RemoveTransfersOf(db.transfers, mb.block.number)
      && after.accounts.Keys == db.accounts.Keys +
           (TxAddresses(mb.transactions) + TransferAddresses(mb.transfers) - {""})
  {
    UndoneTables(db, mb.block.number);
    var undone := UndoBlock(db, mb.block.number);
    var participants := TxAddresses(mb.transactions) + TransferAddresses(mb.transfers);
    UpsertAccepts(undone.accounts, participants, mb.block.minedAt);
    assert HashTakenElsewhere(undone, mb.block) <==> HashTakenElsewhere(db, mb.block);
    if AllWellFormed(participants) {
      UpsertAccountsEffect(undone.accounts, participants, mb.block.minedAt,
                           UpsertAccounts(undone.accounts, participants, mb.block.minedAt).value);
    }
  }

  lemma PromoteAccepts(db: Db, mb: MinedBlock, now: Time)
    requires "" !in db.accounts && TxAddresses(mb.transactions) - {""} <= db.accounts.Keys
    ensures UpsertMined(db, mb, now).Ok? <==>
      TxsAcceptable(mb.transactions, db.txs.Keys)
    ensures UpsertMined(db, mb, now).Ok? ==>
      var after := UpsertMined(db, mb, now).value;
      && after.txs.Keys == db.txs.Keys + HashSet(mb.transactions)
      && after.transfers == db.transfers
      && after.accounts.Keys == db.accounts.Keys + CreatedContracts(mb.transactions)
  {
    var created := CreatedContracts(mb.transactions);
    UpsertAccepts(db.accounts, created, mb.block.minedAt);
    if AllWellFormed(created) {
      var upserted := UpsertAccounts(db.accounts, created, mb.block.minedAt).value;
      assert MarkContracts(upserted, created).Keys == db.accounts.Keys + created;
      forall t | t in mb.transactions ensures t.from != "" <==> t.from in MarkContracts(upserted, created) {
        assert t.from in TxAddresses(mb.transactions);
      }
    }
  }

  lemma InsertAccepts(db: Db, mb: MinedBlock, now: Time)
    requires "" !in db.accounts && TransferAddresses(mb.transfers) - {""} <= db.accounts.Keys
    ensures InsertTransfers(db, mb.block.number, mb.transfers, now).Ok? <==>
      forall tt | tt in mb.transfers ::
        tt.txHash in db.txs && (Key(tt) in db.transfers || "" !in {tt.token, tt.from, tt.to})
  {
    forall tt | tt in mb.transfers
      ensures "" !in {tt.token, tt.from, tt.to} <==> {tt.token, tt.from, tt.to} <= db.accounts.Keys
    {
      assert {tt.token, tt.from, tt.to} <= TransferAddresses(mb.transfers);
    }
  }

  lemma LastAccepts(db: Db, recorded: Db, promoted: Db, mb: MinedBlock, now: Time)
    requires "" !in db.accounts
    requires recorded.txs.Keys == db.txs.Keys
    requires recorded.transfers == RemoveTransfersOf(db.transfers, mb.block.number)
    requires recorded.accounts.Keys == db.accounts.Keys +
      (TxAddresses(mb.transactions) + TransferAddresses(mb.transfers) - {""})
    requires promoted.txs.Keys == recorded.txs.Keys + HashSet(mb.transactions)
    requires promoted.transfers == recorded.transfers
    requires promoted.accounts.Keys == recorded.accounts.Keys + CreatedContracts(mb.transactions)
    ensures InsertTransfers(promoted, mb.block.number, mb.transfers, now).Ok? <==>
      TransfersAcceptable(
        mb.transfers, db.txs.Keys + HashSet(mb.transactions), db.transfers, mb.block.number)
  {
    InsertAccepts(promoted, mb, now);
  }

  lemma PromoteStep(db: Db, mb: MinedBlock, now: Time) returns (promoted: Outcome)
    requires "" !in db.accounts && TxAddresses(mb.transactions) - {""} <= db.accounts.Keys
    ensures promoted == if mb.transactions == [] then Ok(db) else UpsertMined(db, mb, now)
    ensures promoted.Ok? <==>
      TxsAcceptable(mb.transactions, db.txs.Keys)
    ensures promoted.Ok? ==>
      && promoted.value.txs.Keys == db.txs.Keys + HashSet(mb.transactions)
      && promoted.value.transfers == db.transfers
      && promoted.value.accounts.Keys == db.accounts.Keys + CreatedContracts(mb.transactions)
  {
    if mb.transactions == [] {
      promoted := Ok(db);
    } else {
      promoted := UpsertMined(db, mb, now);
      PromoteAccepts(db, mb, now);
    }
  }

  /** The three stages that must each succeed. */
  lemma Stages(db: Db, mb: MinedBlock, now: Time)
    requires !AlreadyStored(db, mb)
    ensures SaveBlock(db, mb, now).Ok? <==>
      && RecordBlock(db, mb, now).Ok?
      && var recorded := RecordBlock(db, mb, now).value;
      var promoted := if mb.transactions == [] then Ok(recorded) else UpsertMined(recorded, mb, now);
      promoted.Ok? && InsertTransfers(promoted.value, mb.block.number, mb.transfers, now).Ok?
  {
  }

  lemma StagesAccept(db: Db, mb: MinedBlock, now: Time) returns (ok: bool)
    requires Consistent(db)
    ensures ok <==> Accepted(db, mb)
    ensures ok <==>
      && RecordBlock(db, mb, now).Ok?
      && var recorded := RecordBlock(db, mb, now).value;
      var promoted := if mb.transactions == [] then Ok(recorded) else UpsertMined(recorded, mb, now);
      promoted.Ok? && InsertTransfers(promoted.value, mb.block.number, mb.transfers, now).Ok?
  {
    EmptyIsNoAccount(db);
    RecordAccepts(db, mb, now);
    var recorded := RecordBlock(db, mb, now);
    ok := recorded.Ok?;
    if ok {
      var promoted := PromoteStep(recorded.value, mb, now);
      ok := promoted.Ok?;
      if ok {
        LastAccepts(db, recorded.value, promoted.value, mb, now);
        ok := InsertTransfers(promoted.value, mb.block.number, mb.transfers, now).Ok?;
      }
    }
  }

  /** A block that is not stored yet commits if and only if it is acceptable. */
  lemma SaveBlockCommits(db: Db, mb: MinedBlock, now: Time)
    requires Consistent(db)
    requires mb.block.number in db.blocks ==> db.blocks[mb.block.number].block.hash != mb.block.hash
    ensures SaveBlock(db, mb, now).Ok? <==> Acceptable(db, mb)
  {
    Stages(db, mb, now);
    var ok := StagesAccept(db, mb, now);
    AcceptedExactly(db, mb);
  }

  /** The constraint that refuses a block: the first that fails in the order of the statements. */
  ghost predicate RefusedBy(db: Db, mb: MinedBlock, e: SqlError) {
    if exists n | n in db.blocks && n != mb.block.number :: db.blocks[n].block.hash == mb.block.hash then
      e == UniqueViolation
    else if (exists t | t in mb.transactions :: !IsAddress(t.from) || !IsAddress(t.to) || !IsAddress(t.created))
            || (exists tt | tt in mb.transfers :: !IsAddress(tt.token) || !IsAddress(tt.from) || !IsAddress(tt.to)) then
      e == CheckViolation
    else if exists i, j | 0 <= i < j < |mb.transactions| :: mb.transactions[i].hash == mb.transactions[j].hash then
      e == CardinalityViolation
    else e == ForeignKeyViolation
  }

  lemma RecordRefuses(db: Db, mb: MinedBlock, now: Time)
    requires Consistent(db) && RecordBlock(db, mb, now).Err?
    ensures RecordBlock(db, mb, now).error ==
      if HashTakenElsewhere(db, mb.block) then UniqueViolation else CheckViolation
  {
    UndoneTables(db, mb.block.number);
    assert HashTakenElsewhere(UndoBlock(db, mb.block.number), mb.block) <==> HashTakenElsewhere(db, mb.block);
  }

  lemma PromoteRefuses(db: Db, mb: MinedBlock, now: Time)
    requires UpsertMined(db, mb, now).Err?
    ensures UpsertMined(db, mb, now).error ==
      if !AllWellFormed(CreatedContracts(mb.transactions)) then CheckViolation
      else if !DistinctHashes(mb.transactions) then CardinalityViolation
      else ForeignKeyViolation
  {
    UpsertAccepts(db.accounts, CreatedContracts(mb.transactions), mb.block.minedAt);
  }

  /** A refused block names the constraint it broke. */
  lemma SaveBlockRefused(db: Db, mb: MinedBlock, now: Time)
    requires Consistent(db) && SaveBlock(db, mb, now).Err?
    ensures RefusedBy(db, mb, SaveBlock(db, mb, now).error)
  {
    ListedAddresses(mb.transactions, mb.transfers);
    EmptyIsNoAccount(db);
    RecordAccepts(db, mb, now);
    if RecordBlock(db, mb, now).Err? {
      RecordRefuses(db, mb, now);
    } else {
      LaterRefused(db, mb, now, RecordBlock(db, mb, now).value);
    }
  }

  lemma LaterRefused(db: Db, mb: MinedBlock, now: Time, recorded: Db)
    requires Consistent(db) && SaveBlock(db, mb, now).Err? && RecordBlock(db, mb, now) == Ok(recorded)
    ensures !HashTakenElsewhere(db, mb.block)
    ensures AllWellFormed(TxAddresses(mb.transactions) + TransferAddresses(mb.transfers))
    ensures SaveBlock(db, mb, now).error ==
      if !AllWellFormed(CreatedContracts(mb.transactions)) then CheckViolation
      else if !DistinctHashes(mb.transactions) then CardinalityViolation
      else ForeignKeyViolation
  {
    EmptyIsNoAccount(db);
    RecordAccepts(db, mb, now);
    var promoted := PromoteStep(recorded, mb, now);
    if promoted.Err? { PromoteRefuses(recorded, mb, now); }
    RefusedLast(db, mb, now, recorded, promoted);
  }

  lemma RefusedLast(db: Db, mb: MinedBlock, now: Time, recorded: Db, promoted: Outcome)
    requires SaveBlock(db, mb, now).Err? && RecordBlock(db, mb, now) == Ok(recorded)
    requires promoted == if mb.transactions == [] then Ok(recorded) else UpsertMined(recorded, mb, now)
    ensures SaveBlock(db, mb, now).error == if promoted.Err? then promoted.error else ForeignKeyViolation
  {
  }

  /** A block stored under its hash always commits, and changes nothing. */
  lemma StoredBlockCommits(db: Db, mb: MinedBlock, now: Time)
    requires mb.block.number in db.blocks && db.blocks[mb.block.number].block.hash == mb.block.hash
    ensures SaveBlock(db, mb, now) == Ok(db)
  {
  }

  /** A pending write commits if and only if its addresses are addresses, and it has a sender unless its
      hash is stored. */
  lemma SavePendingCommits(db: Db, tx: Tx, now: Time)
    requires Consistent(db)
    ensures SavePending(db, tx, now).Ok? <==>
      IsAddress(tx.from) && IsAddress(tx.to) && (tx.hash in db.txs || tx.from != "")
  {
    EmptyIsNoAccount(db);
    UpsertAccepts(db.accounts, {tx.from, tx.to}, tx.timestamp);
    AddressesShaped({tx.from, tx.to});
    assert tx.from in {tx.from, tx.to} && tx.to in {tx.from, tx.to};
  }

  /** Otherwise it names the constraint it broke. */
  lemma SavePendingRefused(db: Db, tx: Tx, now: Time)
    requires SavePending(db, tx, now).Err?
    ensures SavePending(db, tx, now).error ==
      if IsAddress(tx.from) && IsAddress(tx.to) then ForeignKeyViolation else CheckViolation
  {
    UpsertAccepts(db.accounts, {tx.from, tx.to}, tx.timestamp);
    AddressesShaped({tx.from, tx.to});
    assert tx.from in {tx.from, tx.to} && tx.to in {tx.from, tx.to};
  }
}
