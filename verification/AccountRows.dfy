/** What no writer takes from an account once it is stored, and what each upsert records. */
module AccountRows {
  import opened Prelude
  import opened Schema
  import opened Ledger

  type Accounts = map<Address, AccountRow>

  /** No account is lost, its first_seen stays, and a contract stays a contract. */
  ghost predicate Remembers(before: Accounts, after: Accounts) {
    forall a | a in before ::
      a in after && after[a].firstSeen == before[a].firstSeen && (before[a].isContract ==> after[a].isContract)
  }

  /** last_seen only moves forward. */
  ghost predicate Forward(before: Accounts, after: Accounts) {
    forall a | a in before && a in after :: before[a].lastSeen <= after[a].lastSeen
  }

  /** Every named account is stored and seen no earlier than `seen`; a new one was first seen then. */
  ghost predicate Records(before: Accounts, after: Accounts, addresses: set<Address>, seen: Time) {
    forall a | a in addresses && a != "" ::
      a in after && seen <= after[a].lastSeen && (a !in before ==> after[a] == AccountRow(false, seen, seen))
  }

  lemma UpsertRecords(before: Accounts, addresses: set<Address>, seen: Time, after: Accounts)
    requires UpsertAccounts(before, addresses, seen) == Ok(after)
    ensures Remembers(before, after) && Forward(before, after) && Records(before, after, addresses, seen)
  {
  }

  lemma PromotedAccounts(db: Db, mb: MinedBlock, now: Time, after: Db)
    requires UpsertMined(db, mb, now) == Ok(after)
    ensures Remembers(db.accounts, after.accounts) && Forward(db.accounts, after.accounts)
  {
    var upserted := UpsertAccounts(db.accounts, CreatedContracts(mb.transactions), mb.block.minedAt).value;
    UpsertRecords(db.accounts, CreatedContracts(mb.transactions), mb.block.minedAt, upserted);
    assert after.accounts == MarkContracts(upserted, CreatedContracts(mb.transactions));
  }

  lemma RecordedAccounts(db: Db, mb: MinedBlock, now: Time, after: Db)
    requires RecordBlock(db, mb, now) == Ok(after)
    ensures Remembers(db.accounts, after.accounts) && Forward(db.accounts, after.accounts)
    ensures Records(
      db.accounts, after.accounts, TxAddresses(mb.transactions) + TransferAddresses(mb.transfers), mb.block.minedAt)
  {
    assert UndoBlock(db, mb.block.number).accounts == db.accounts;
    var participants := TxAddresses(mb.transactions) + TransferAddresses(mb.transfers);
    UpsertRecords(db.accounts, participants, mb.block.minedAt, after.accounts);
  }

  lemma LastAccounts(promoted: Db, mb: MinedBlock, now: Time, after: Db)
    requires if mb.transfers == [] then after == promoted
             else InsertTransfers(promoted, mb.block.number, mb.transfers, now) == Ok(after)
    ensures after.accounts == promoted.accounts
  {
  }

  /** A committed block forgets nothing, and sees every participant no earlier than it was mined. */
  lemma SaveBlockRecords(db: Db, mb: MinedBlock, now: Time, after: Db)
    requires SaveBlock(db, mb, now) == Ok(after) && !AlreadyStored(db, mb)
    ensures Remembers(db.accounts, after.accounts) && Forward(db.accounts, after.accounts)
    ensures forall a | a in TxAddresses(mb.transactions) + TransferAddresses(mb.transfers) && a != "" ::
      a in after.accounts && mb.block.minedAt <= after.accounts[a].lastSeen
  {
    var recorded := RecordBlock(db, mb, now).value;
    RecordedAccounts(db, mb, now, recorded);
    if mb.transactions == [] {
      LastAccounts(recorded, mb, now, after);
    } else {
      var promoted := UpsertMined(recorded, mb, now).value;
      PromotedAccounts(recorded, mb, now, promoted);
      LastAccounts(promoted, mb, now, after);
    }
  }

  // ----- Every account row after a write -----

  /** The block names the address: as the sender or recipient of a transaction, as a contract it created,
      or as the token or an end of a transfer. */
  ghost predicate Names(mb: MinedBlock, a: Address) {
    || (exists t | t in mb.transactions :: a == t.from || a == t.to || a == t.created)
    || (exists tt | tt in mb.transfers :: a == tt.token || a == tt.from || a == tt.to)
  }

  /** An account met at `at`: a new one was first and last seen then, an old one keeps the later time. */
  predicate Met(before: Accounts, row: AccountRow, a: Address, at: Time) {
    if a !in before then row.firstSeen == at && row.lastSeen == at
    else
      && row.firstSeen == before[a].firstSeen
      && row.lastSeen == if before[a].lastSeen < at then at else before[a].lastSeen
  }

  lemma UpsertMeets(before: Accounts, addresses: set<Address>, at: Time, after: Accounts, a: Address)
    requires UpsertAccounts(before, addresses, at) == Ok(after)
    ensures a in after <==> a in before || (a in addresses && a != "")
    ensures a in addresses && a != "" ==> Met(before, after[a], a, at)
    ensures a in before && (a !in addresses || a == "") ==> after[a] == before[a]
    ensures a in after ==> (after[a].isContract <==> a in before && before[a].isContract)
  {
  }

  lemma NamedIn(mb: MinedBlock, a: Address)
    requires a != ""
    ensures Names(mb, a) <==>
      a in TxAddresses(mb.transactions) + TransferAddresses(mb.transfers) || a in CreatedContracts(mb.transactions)
    ensures a in CreatedContracts(mb.transactions) <==> exists t | t in mb.transactions :: t.created == a
  {
  }

  /** The two upserts of a block and the mark between them. */
  lemma PromotedAccount(db: Db, mb: MinedBlock, now: Time, promoted: Db, a: Address)
    requires if mb.transactions == [] then promoted == db else UpsertMined(db, mb, now) == Ok(promoted)
    ensures var created := CreatedContracts(mb.transactions);
      && (a in promoted.accounts <==> a in db.accounts || a in created)
      && (a in created ==> Met(db.accounts, promoted.accounts[a], a, mb.block.minedAt))
      && (a in db.accounts && a !in created ==> promoted.accounts[a] == db.accounts[a])
      && (a in promoted.accounts ==>
            (promoted.accounts[a].isContract <==> (a in db.accounts && db.accounts[a].isContract) || a in created))
  {
    var created := CreatedContracts(mb.transactions);
    if mb.transactions == [] {
      assert created == {};
    } else {
      var upserted := UpsertAccounts(db.accounts, created, mb.block.minedAt).value;
      UpsertMeets(db.accounts, created, mb.block.minedAt, upserted, a);
      assert promoted.accounts == MarkContracts(upserted, created);
    }
  }

  lemma RecordedAccount(db: Db, mb: MinedBlock, now: Time, recorded: Db, a: Address)
    requires RecordBlock(db, mb, now) == Ok(recorded)
    ensures var participants := TxAddresses(mb.transactions) + TransferAddresses(mb.transfers);
      && (a in recorded.accounts <==> a in db.accounts || (a in participants && a != ""))
      && (a in participants && a != "" ==> Met(db.accounts, recorded.accounts[a], a, mb.block.minedAt))
      && (a in db.accounts && (a !in participants || a == "") ==> recorded.accounts[a] == db.accounts[a])
      && (a in recorded.accounts ==>
            (recorded.accounts[a].isContract <==> a in db.accounts && db.accounts[a].isContract))
  {
    assert UndoBlock(db, mb.block.number).accounts == db.accounts;
    var participants := TxAddresses(mb.transactions) + TransferAddresses(mb.transfers);
    UpsertMeets(db.accounts, participants, mb.block.minedAt, recorded.accounts, a);
  }

  /** One account row after a committed block. */
  ghost predicate AccountAfter(before: Accounts, after: Accounts, mb: MinedBlock, a: Address) {
    && (a in after <==> a in before || (a != "" && Names(mb, a)))
    && (a in after ==> (after[a].isContract <==>
          (a in before && before[a].isContract) || exists t | t in mb.transactions :: t.created == a && a != ""))
    && (a != "" && Names(mb, a) ==> Met(before, after[a], a, mb.block.minedAt))
    && (a in before && !(a != "" && Names(mb, a)) ==> after[a] == before[a])
  }

  lemma SavedAccount(db: Db, mb: MinedBlock, now: Time, after: Db, a: Address)
    requires SaveBlock(db, mb, now) == Ok(after) && !AlreadyStored(db, mb)
    ensures AccountAfter(db.accounts, after.accounts, mb, a)
  {
    var recorded := RecordBlock(db, mb, now).value;
    var promoted := if mb.transactions == [] then recorded else UpsertMined(recorded, mb, now).value;
    LastAccounts(promoted, mb, now, after);
    RecordedAccount(db, mb, now, recorded, a);
    PromotedAccount(recorded, mb, now, promoted, a);
    if a != "" { NamedIn(mb, a); }
  }

  lemma AccountsAfter(before: Accounts, after: Accounts, mb: MinedBlock)
    requires forall a :: AccountAfter(before, after, mb, a)
    ensures forall a :: a in after <==> a in before || (a != "" && Names(mb, a))
    ensures forall a :: a in after && after[a].isContract <==>
      (a in before && before[a].isContract) || exists t | t in mb.transactions :: t.created == a && a != ""
    ensures forall a | a in after && a !in before ::
      after[a].firstSeen == mb.block.minedAt && after[a].lastSeen == mb.block.minedAt
    ensures forall a | a in before ::
      && after[a].firstSeen == before[a].firstSeen
      && after[a].lastSeen ==
           if a != "" && Names(mb, a) && before[a].lastSeen < mb.block.minedAt
           then mb.block.minedAt else before[a].lastSeen
  {
    forall a
      ensures a in after <==> a in before || (a != "" && Names(mb, a))
      ensures a in after && after[a].isContract <==>
        (a in before && before[a].isContract) || exists t | t in mb.transactions :: t.created == a && a != ""
    {
      assert AccountAfter(before, after, mb, a);
      if t :| t in mb.transactions && t.created == a && a != "" { assert Names(mb, a); }
    }
    forall a | a in after && a !in before
      ensures after[a].firstSeen == mb.block.minedAt && after[a].lastSeen == mb.block.minedAt
    {
      assert AccountAfter(before, after, mb, a);
    }
    forall a | a in before
      ensures after[a].firstSeen == before[a].firstSeen
      ensures after[a].lastSeen ==
        if a != "" && Names(mb, a) && before[a].lastSeen < mb.block.minedAt
        then mb.block.minedAt else before[a].lastSeen
    {
      assert AccountAfter(before, after, mb, a);
    }
  }

  /** Every account row after a committed block, from the block alone. Stored are the old accounts and the
      addresses it names; contracts are the old ones and those a transaction of it created, and no others;
      a named account was last seen at the later of its old time and the block's, any other as before. */
  lemma SaveBlockAccounts(db: Db, mb: MinedBlock, now: Time, after: Db)
    requires SaveBlock(db, mb, now) == Ok(after)
    requires mb.block.number in db.blocks ==> db.blocks[mb.block.number].block.hash != mb.block.hash
    ensures forall a :: a in after.accounts <==> a in db.accounts || (a != "" && Names(mb, a))
    ensures forall a :: a in after.accounts && after.accounts[a].isContract <==>
      (a in db.accounts && db.accounts[a].isContract) || exists t | t in mb.transactions :: t.created == a && a != ""
    ensures forall a | a in after.accounts && a !in db.accounts ::
      after.accounts[a].firstSeen == mb.block.minedAt && after.accounts[a].lastSeen == mb.block.minedAt
    ensures forall a | a in db.accounts ::
      && after.accounts[a].firstSeen == db.accounts[a].firstSeen
      && after.accounts[a].lastSeen ==
           if a != "" && Names(mb, a) && db.accounts[a].lastSeen < mb.block.minedAt
           then mb.block.minedAt else db.accounts[a].lastSeen
  {
    forall a ensures AccountAfter(db.accounts, after.accounts, mb, a) { SavedAccount(db, mb, now, after, a); }
    AccountsAfter(db.accounts, after.accounts, mb);
  }

  /** The same after a committed pending write: its sender and recipient are seen, and nothing else. */
  lemma PendingAccounts(db: Db, tx: Tx, now: Time, after: Db)
    requires SavePending(db, tx, now) == Ok(after)
    ensures forall a :: a in after.accounts <==> a in db.accounts || (a != "" && (a == tx.from || a == tx.to))
    ensures forall a | a in after.accounts && a !in db.accounts ::
      after.accounts[a] == AccountRow(false, tx.timestamp, tx.timestamp)
    ensures forall a | a in db.accounts ::
      after.accounts[a] ==
        if a != "" && (a == tx.from || a == tx.to) && db.accounts[a].lastSeen < tx.timestamp
        then db.accounts[a].(lastSeen := tx.timestamp) else db.accounts[a]
  {
    assert UpsertAccounts(db.accounts, {tx.from, tx.to}, tx.timestamp) == Ok(after.accounts);
  }

  /** UpsertAccount writes one row: it marks a contract for good and sets last_seen to the clock. */
  lemma TouchedAccount(db: Db, a: Address, isContract: bool, now: Time)
    ensures var after := Step(db, TouchAccount(a, isContract, now));
      && after == db.(accounts := after.accounts)
      && (forall b | b != a :: (b in after.accounts <==> b in db.accounts)
                               && (b in db.accounts ==> after.accounts[b] == db.accounts[b]))
      && (a in after.accounts ==> a in db.accounts || WellFormed(a))
      && (WellFormed(a) ==>
            && a in after.accounts && after.accounts[a].lastSeen == now
            && after.accounts[a].firstSeen == (if a in db.accounts then db.accounts[a].firstSeen else now)
            && (after.accounts[a].isContract <==> isContract || (a in db.accounts && db.accounts[a].isContract)))
  {
  }

  lemma PendingRecords(db: Db, tx: Tx, now: Time)
    ensures Remembers(db.accounts, Step(db, SaveTx(tx, now)).accounts)
    ensures Forward(db.accounts, Step(db, SaveTx(tx, now)).accounts)
  {
    match UpsertAccounts(db.accounts, {tx.from, tx.to}, tx.timestamp)
    case Ok(accounts) => UpsertRecords(db.accounts, {tx.from, tx.to}, tx.timestamp, accounts);
    case Err(_) =>
  }

  lemma SavedRecords(db: Db, mb: MinedBlock, now: Time)
    ensures Remembers(db.accounts, Step(db, SaveMined(mb, now)).accounts)
    ensures Forward(db.accounts, Step(db, SaveMined(mb, now)).accounts)
  {
    if SaveBlock(db, mb, now).Ok? && !AlreadyStored(db, mb) {
      SaveBlockRecords(db, mb, now, SaveBlock(db, mb, now).value);
    }
  }

  /** No writer forgets an account, its first_seen or that it is a contract; last_seen moves forward
      unless a contract is marked with the clock's time. */
  lemma StepRemembers(db: Db, op: Op)
    ensures Remembers(db.accounts, Step(db, op).accounts)
    ensures !op.TouchAccount? ==> Forward(db.accounts, Step(db, op).accounts)
  {
    match op
    case SaveTx(tx, now) => PendingRecords(db, tx, now);
    case SaveMined(mb, now) => SavedRecords(db, mb, now);
    case TouchAccount(_, _, _) =>
    case DropOld(_, _) =>
    case Claim(_, _) =>
    case Complete(_, _) =>
    case Fail(_, _) =>
    case Prune(_, _, _) =>
  }

  ghost predicate Stepwise(states: seq<Db>) {
    forall k | 0 < k < |states| :: Remembers(states[k - 1].accounts, states[k].accounts)
  }

  lemma RunIsStepwise(states: seq<Db>, ops: seq<Op>)
    requires IsRun(states, ops)
    ensures Stepwise(states)
  {
    forall k | 0 <= k < |ops| ensures Remembers(states[k].accounts, states[k + 1].accounts) {
      StepRemembers(states[k], ops[k]);
    }
    forall k | 0 < k < |states| ensures Remembers(states[k - 1].accounts, states[k].accounts) {
      var j := k - 1;
      assert states[j + 1] == states[k];
    }
  }

  lemma {:induction false} StepwiseRemembers(states: seq<Db>, i: nat, k: nat)
    requires Stepwise(states) && i <= k < |states|
    ensures Remembers(states[i].accounts, states[k].accounts)
  {
    if i < k { StepwiseRemembers(states, i, k - 1); }
  }

  /** So an account once stored stays, over every run. */
  lemma RunRemembers(states: seq<Db>, ops: seq<Op>, i: nat, k: nat)
    requires IsRun(states, ops) && i <= k < |states|
    ensures Remembers(states[i].accounts, states[k].accounts)
  {
    RunIsStepwise(states, ops);
    StepwiseRemembers(states, i, k);
  }
}
