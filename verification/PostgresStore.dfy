/** The store itself: tables as fields, each method a transaction that changes them in place,
    proved against the statement functions of Ledger. */
module PostgresStore {
  import opened Prelude
  import opened Schema
  import opened Ledger

  const MAX_TX_ATTEMPTS: nat := 5
  const PRUNE_BATCH: nat := 10000

  /** What the world does to one attempt of a transaction: its clock, a fault raised by the server,
      whether the caller's context ends before or during the back-off, and what the other writers make
      of the tables during that back-off. */
  datatype Env = Env(now: Time, fault: Option<SqlError>, cancelled: bool, cancelledWaiting: bool, others: Others)

  /** What other writers may do meanwhile: anything. */
  type Others = Db -> Db

  predicate Retryable(e: SqlError) { e == DeadlockDetected || e == SerializationFailure }

  /** The two writes that run inside withTx. */
  datatype Write = WritePending(tx: Tx) | WriteBlock(mb: MinedBlock)

  function Apply(db: Db, w: Write, now: Time): Outcome {
    match w
    case WritePending(tx) => SavePending(db, tx, now)
    case WriteBlock(mb) => SaveBlock(db, mb, now)
  }

  function TryOnce(db: Db, w: Write, env: Env): Outcome {
    if env.fault.Some? then Err(env.fault.value) else Apply(db, w, env.now)
  }

  /** The tables attempt k finds. */
  function Found(db: Db, env: seq<Env>, k: nat): Db
    requires k <= |env|
  {
    if k == 0 then db else env[k - 1].others(Found(db, env, k - 1))
  }

  /** The server aborts the attempt in a way that is retried, and the caller's context goes on. */
  predicate TriesAgain(e: Env) {
    && (e.fault == Some(DeadlockDetected) || e.fault == Some(SerializationFailure))
    && !e.cancelled && !e.cancelledWaiting
  }

  /** How the last attempt of a write ends; `written` is what it makes of the tables it found. Without a fault it
      ends as the write does; a context that ends during the back-off is the error; otherwise the fault is. */
  predicate Ends(found: Db, e: Env, last: bool, written: Outcome, err: Option<SqlError>, after: Db) {
    && (last || !TriesAgain(e))
    && if e.fault.None? then
         (if written.Ok? then err.None? && after == written.value else err == Some(written.error) && after == found)
       else if !last && (e.fault.value == DeadlockDetected || e.fault.value == SerializationFailure)
               && !e.cancelled then
         err == Some(Cancelled) && after == e.others(found)
       else err == e.fault && after == found
  }

  /** The write ends at attempt k, from 0 on: every attempt before was tried again, and the fifth is the last. */
  ghost predicate EndsAt(before: Db, env: seq<Env>, k: nat, written: Outcome, err: Option<SqlError>, after: Db)
    requires k < |env|
  {
    && (forall j | 0 <= j < k :: TriesAgain(env[j]))
    && Ends(Found(before, env, k), env[k], k == 4, written, err, after)
  }

  /** No statement of a write by itself ends in an error that is retried. */
  lemma OwnErrors(db: Db, w: Write, now: Time)
    ensures Apply(db, w, now).Err? ==> !Retryable(Apply(db, w, now).error)
  {
    match w
    case WritePending(tx) => PendingErrors(db, tx, now);
    case WriteBlock(mb) => if !AlreadyStored(db, mb) { BlockErrors(db, mb, now); }
  }

  lemma PendingErrors(db: Db, tx: Tx, now: Time)
    ensures SavePending(db, tx, now).Err? ==> SavePending(db, tx, now).error in {CheckViolation, ForeignKeyViolation}
  {
  }

  lemma RecordErrors(db: Db, mb: MinedBlock, now: Time)
    ensures RecordBlock(db, mb, now).Err? ==> RecordBlock(db, mb, now).error in {UniqueViolation, CheckViolation}
  {
  }

  lemma UpsertErrors(db: Db, mb: MinedBlock, now: Time)
    ensures UpsertMined(db, mb, now).Err? ==>
      UpsertMined(db, mb, now).error in {CheckViolation, CardinalityViolation, ForeignKeyViolation}
  {
  }

  lemma BlockErrors(db: Db, mb: MinedBlock, now: Time)
    requires !AlreadyStored(db, mb)
    ensures SaveBlock(db, mb, now).Err? ==> !Retryable(SaveBlock(db, mb, now).error)
  {
    RecordErrors(db, mb, now);
    if RecordBlock(db, mb, now).Ok? { UpsertErrors(RecordBlock(db, mb, now).value, mb, now); }
  }

  // ----- Loops over slices, against the set-based statements -----

  function Elements(list: seq<string>): set<string> { set s | s in list }

  /** The accounts after the first rows of the upsert. */
  function Seen(accounts: map<Address, AccountRow>, named: set<Address>, seen: Time): map<Address, AccountRow> {
    map a | a in accounts.Keys + named ::
      if a !in accounts then AccountRow(false, seen, seen)
      else if a in named then accounts[a].(lastSeen := Max(accounts[a].lastSeen, seen))
      else accounts[a]
  }

  /** One row of the upsert. */
  function SeeOne(accounts: map<Address, AccountRow>, a: Address, seen: Time): map<Address, AccountRow> {
    accounts[a := if a in accounts then accounts[a].(lastSeen := Max(accounts[a].lastSeen, seen))
                  else AccountRow(false, seen, seen)]
  }

  /** An address met again changes nothing. */
  lemma SeenNext(before: map<Address, AccountRow>, named: set<Address>, a: Address, seen: Time)
    ensures Seen(before, named + {a}, seen) == SeeOne(Seen(before, named, seen), a, seen)
  {
  }

  lemma OneMoreHash(list: seq<Tx>, i: nat)
    requires DistinctHashes(list) && i < |list|
    ensures HashSet(list[..i + 1]) == HashSet(list[..i]) + {list[i].hash}
    ensures list[i].hash !in HashSet(list[..i])
  {
    assert list[..i + 1] == list[..i] + [list[i]];
    OneMoreTx(list[..i], list[i]);
  }

  /** The rows with these hashes are promoted, the others are as before. */
  ghost predicate PromotedAt(before: map<Hash, TxRow>, mb: MinedBlock, done: set<Hash>, now: map<Hash, TxRow>) {
    && done <= HashSet(mb.transactions) && now.Keys == before.Keys + done
    && forall h | h in now ::
         now[h] == if h in done then MinedRow(before, mb, FindTx(mb.transactions, h)) else before[h]
  }

  ghost predicate PromotedTo(before: map<Hash, TxRow>, mb: MinedBlock, i: nat, now: map<Hash, TxRow>)
    requires i <= |mb.transactions|
  {
    PromotedAt(before, mb, HashSet(mb.transactions[..i]), now)
  }

  lemma SameBase(before: map<Hash, TxRow>, now: map<Hash, TxRow>, mb: MinedBlock, t: Tx)
    requires t.hash in before <==> t.hash in now
    requires t.hash in now ==> now[t.hash] == before[t.hash]
    ensures MinedRow(now, mb, t) == MinedRow(before, mb, t)
  {
  }

  lemma PromoteNext(before: map<Hash, TxRow>, mb: MinedBlock, i: nat, now: map<Hash, TxRow>)
    requires DistinctHashes(mb.transactions) && i < |mb.transactions| && PromotedTo(before, mb, i, now)
    ensures var t := mb.transactions[i]; PromotedTo(before, mb, i + 1, now[t.hash := MinedRow(now, mb, t)])
  {
    OneMoreHash(mb.transactions, i);
    FindDistinct(mb.transactions, i);
    PromoteHash(before, mb, HashSet(mb.transactions[..i]), now, mb.transactions[i]);
  }

  lemma PromoteHash(before: map<Hash, TxRow>, mb: MinedBlock, done: set<Hash>, now: map<Hash, TxRow>, t: Tx)
    requires PromotedAt(before, mb, done, now) && t.hash !in done
    requires t.hash in HashSet(mb.transactions) && FindTx(mb.transactions, t.hash) == t
    ensures PromotedAt(before, mb, done + {t.hash}, now[t.hash := MinedRow(now, mb, t)])
  {
    SameBase(before, now, mb, t);
  }

  lemma PromotedAll(before: map<Hash, TxRow>, mb: MinedBlock, now: map<Hash, TxRow>)
    requires PromotedTo(before, mb, |mb.transactions|, now)
    ensures now == PromoteTxs(before, mb)
  {
    assert mb.transactions[..|mb.transactions|] == mb.transactions;
  }

  lemma OneMoreTx(list: seq<Tx>, t: Tx)
    ensures TxAddresses(list + [t]) == TxAddresses(list) + {t.from, t.to}
    ensures CreatedContracts(list + [t]) == CreatedContracts(list) + ({t.created} - {""})
    ensures JobHashes(list + [t]) == JobHashes(list) + if t.to != "" || t.created != "" then {t.hash} else {}
    ensures HashSet(list + [t]) == HashSet(list) + {t.hash}
  {
    var more := list + [t];
    assert forall u :: u in more <==> u in list || u == t;
    assert t in more;
    assert forall u | u in list :: u in more;
  }

  lemma OneMoreTransfer(list: seq<Transfer>, tt: Transfer)
    ensures TransferAddresses(list + [tt]) == TransferAddresses(list) + {tt.token, tt.from, tt.to}
  {
    var more := list + [tt];
    assert forall u :: u in more <==> u in list || u == tt;
    assert tt in more;
  }

  lemma FindDistinct(list: seq<Tx>, i: nat)
    requires DistinctHashes(list) && i < |list|
    ensures list[i].hash in HashSet(list) && FindTx(list, list[i].hash) == list[i]
  {
    var t := FindTx(list, list[i].hash);
    var j :| 0 <= j < |list| && list[j] == t;
    assert i == j;
  }

  /** Inserting the rest of the rows into what the first ones made is inserting all of them. */
  lemma InsertRowsStep(table: map<TransferKey, TransferRow>, n: nat, list: seq<Transfer>, i: nat)
    requires i < |list|
    ensures var tt := list[i];
      InsertRows(table, n, list[i..]) ==
      InsertRows(if Key(tt) in table then table
                 else table[Key(tt) := TransferRow(n, tt.token, tt.from, tt.to, tt.amount)], n, list[i + 1..])
  {
    assert list[i..][0] == list[i] && list[i..][1..] == list[i + 1..];
  }

  predicate Stale(row: TxRow, cutoff: Time) { row.status == Pending && row.timestamp < cutoff }

  function StaleRows(txs: map<Hash, TxRow>, cutoff: Time): set<Hash> {
    set h | h in txs && Stale(txs[h], cutoff)
  }

  /** All rows but those still to do have been swept. */
  ghost predicate SweptBut(before: map<Hash, TxRow>, cutoff: Time, todo: set<Hash>, now: map<Hash, TxRow>) {
    && todo <= before.Keys == now.Keys
    && forall h | h in now ::
         now[h] == if h in todo || !Stale(before[h], cutoff) then before[h] else before[h].(status := Dropped)
  }

  /** The stale rows among those swept have been counted. */
  ghost predicate CountedBut(before: map<Hash, TxRow>, cutoff: Time, todo: set<Hash>, affected: nat) {
    affected == |StaleRows(before, cutoff) - todo|
  }

  lemma SweepStarts(before: map<Hash, TxRow>, cutoff: Time)
    ensures SweptBut(before, cutoff, before.Keys, before) && CountedBut(before, cutoff, before.Keys, 0)
  {
    assert StaleRows(before, cutoff) - before.Keys == {};
  }

  lemma SweepNext(before: map<Hash, TxRow>, cutoff: Time, todo: set<Hash>, now: map<Hash, TxRow>, h: Hash)
    requires SweptBut(before, cutoff, todo, now) && h in todo
    ensures now[h] == before[h]
    ensures SweptBut(before, cutoff, todo - {h},
                     if Stale(now[h], cutoff) then now[h := now[h].(status := Dropped)] else now)
  {
  }

  lemma SweepCounts(before: map<Hash, TxRow>, cutoff: Time, todo: set<Hash>, affected: nat, h: Hash)
    requires CountedBut(before, cutoff, todo, affected) && h in todo && h in before
    ensures CountedBut(before, cutoff, todo - {h}, affected + if Stale(before[h], cutoff) then 1 else 0)
  {
    assert StaleRows(before, cutoff) - (todo - {h}) ==
      StaleRows(before, cutoff) - todo + if Stale(before[h], cutoff) then {h} else {};
  }

  lemma SweepEnds(before: map<Hash, TxRow>, cutoff: Time, now: map<Hash, TxRow>, affected: nat)
    requires SweptBut(before, cutoff, {}, now) && CountedBut(before, cutoff, {}, affected)
    ensures now == DropStale(before, cutoff) && affected == |StaleRows(before, cutoff)|
  {
    assert StaleRows(before, cutoff) - {} == StaleRows(before, cutoff);
  }

  /** Exactly the pending transactions seen longer ago than olderThan become dropped, and nothing
      else about any row changes. */
  ghost predicate DroppedExactly(before: map<Hash, TxRow>, after: map<Hash, TxRow>, olderThan: Time, now: Time) {
    && after.Keys == before.Keys
    && (forall h | h in after ::
          after[h].status == Dropped <==>
            before[h].status == Dropped || (before[h].status == Pending && now - before[h].timestamp > olderThan))
    && forall h | h in after :: after[h] == before[h] || after[h].(status := Pending) == before[h]
  }

  ghost function Changed(before: map<Hash, TxRow>, after: map<Hash, TxRow>): set<Hash>
    requires after.Keys == before.Keys
  {
    set h | h in after && after[h] != before[h]
  }

  /** What the UPDATE means for each row. */
  lemma SweptRows(before: map<Hash, TxRow>, after: map<Hash, TxRow>, olderThan: Time, now: Time)
    requires after == DropStale(before, now - olderThan)
    ensures DroppedExactly(before, after, olderThan, now)
    ensures StaleRows(before, now - olderThan) == Changed(before, after)
  {
  }

  lemma DropOldStep(db: Db, olderThan: Time, now: Time)
    ensures Step(db, DropOld(olderThan, now)) == db.(txs := DropStale(db.txs, now - olderThan))
  {
  }

  /** The job's time has come, and it is queued, or in processing under a lock of two minutes or more. */
  predicate Due(job: JobRow, now: Time) {
    && job.availableAt <= now
    && (job.status == Queued
        || (job.status == Processing && job.lockedAt.Some? && now - job.lockedAt.value >= 120_000_000))
  }

  lemma DueExactly(now: Time)
    ensures forall job :: Due(job, now) <==> Claimable(job, now, now - LEASE)
  {
  }

  /** What a failed job waits after each number of attempts: 5, 10, 20, 40, 80, 160 and then 300 seconds. */
  const WAITS: seq<Time> :=
    [5_000_000, 10_000_000, 20_000_000, 40_000_000, 80_000_000, 160_000_000, 300_000_000]

  lemma WaitExactly(attempts: nat)
    ensures Min(Pow2(attempts) * 5, 300) * SECOND == WAITS[Min(attempts, 6)]
  {
    if attempts > 6 { AtLeast64(attempts); }
    assert Pow2(0) == 1 && Pow2(1) == 2 && Pow2(2) == 4 && Pow2(3) == 8;
    assert Pow2(4) == 16 && Pow2(5) == 32 && Pow2(6) == 64;
  }

  lemma {:induction false} AtLeast64(n: nat)
    requires n >= 6
    ensures Pow2(n) >= 64
  {
    if n > 6 {
      AtLeast64(n - 1);
    } else {
      assert Pow2(4) == 16 && Pow2(5) == 32;
    }
  }

  class Postgres {
    var blocks: map<nat, BlockRow>
    var txs: map<Hash, TxRow>
    var transfers: map<TransferKey, TransferRow>
    var accounts: map<Address, AccountRow>
    var jobs: map<Hash, JobRow>

    function State(): Db
      reads this
    {
      Db(blocks, txs, transfers, accounts, jobs)
    }

    constructor ()
      ensures State() == EMPTY
    {
      blocks, txs, transfers, accounts, jobs := map[], map[], map[], map[], map[];
    }

    // ----- Statements -----

    method UpsertAccounts(list: seq<Address>, seen: Time) returns (err: Option<SqlError>)
      modifies this`accounts
      ensures err == match Ledger.UpsertAccounts(old(accounts), Elements(list), seen)
                     case Ok(_) => None case Err(e) => Some(e)
      ensures err.None? ==> Ledger.UpsertAccounts(old(accounts), Elements(list), seen) == Ok(accounts)
    {
      var i := 0;
      while i < |list|
        invariant 0 <= i <= |list|
        invariant forall a | a in list[..i] && a != "" :: WellFormed(a)
        invariant accounts == Seen(old(accounts), Elements(list[..i]) - {""}, seen)
      {
        var a := list[i];
        assert Elements(list[..i + 1]) - {""} == Elements(list[..i]) - {""} + if a == "" then {} else {a};
        if a != "" {
          if !WellFormed(a) {
            assert a in Elements(list) - {""};
            return Some(CheckViolation);
          }
          SeenNext(old(accounts), Elements(list[..i]) - {""}, a, seen);
          if a in accounts {
            accounts := accounts[a := accounts[a].(lastSeen := Max(accounts[a].lastSeen, seen))];
          } else {
            accounts := accounts[a := AccountRow(false, seen, seen)];
          }
        }
        i := i + 1;
      }
      assert list[..i] == list;
      return None;
    }

    method InsertTransaction(tx: Tx) returns (err: Option<SqlError>, inserted: bool)
      modifies this`txs
      ensures inserted == (tx.hash !in old(txs) && tx.from in accounts)
      ensures err == if tx.hash in old(txs) || tx.from in accounts then None else Some(ForeignKeyViolation)
      ensures txs == if inserted then old(txs)[tx.hash := PendingRow(tx)] else old(txs)
    {
      if tx.hash in txs { return None, false; }
      if tx.from !in accounts { return Some(ForeignKeyViolation), false; }
      txs := txs[tx.hash := PendingRow(tx)];
      return None, true;
    }

    method EnqueueJobs(hashes: seq<Hash>, now: Time)
      modifies this`jobs
      ensures jobs == Enqueue(old(jobs), Elements(hashes), now)
    {
      var i := 0;
      while i < |hashes|
        invariant 0 <= i <= |hashes|
        invariant jobs == Enqueue(old(jobs), Elements(hashes[..i]), now)
      {
        assert Elements(hashes[..i + 1]) == Elements(hashes[..i]) + {hashes[i]};
        if hashes[i] !in jobs {
          jobs := jobs[hashes[i] := NewJob(now)];
        }
        i := i + 1;
      }
      assert hashes[..i] == hashes;
    }

    method SavePendingBody(tx: Tx, now: Time) returns (err: Option<SqlError>)
      modifies this
      ensures match SavePending(old(State()), tx, now)
              case Ok(after) => err.None? && State() == after
              case Err(e) => err == Some(e)
    {
      assert Elements([tx.from, tx.to]) == {tx.from, tx.to};
      err := UpsertAccounts([tx.from, tx.to], tx.timestamp);
      if err.Some? { return; }
      var inserted;
      err, inserted := InsertTransaction(tx);
      if err.Some? || !inserted || tx.to == "" { return; }
      assert Elements([tx.hash]) == {tx.hash};
      EnqueueJobs([tx.hash], now);
    }

    method Undo(n: nat)
      modifies this`transfers, this`txs
      ensures State() == UndoBlock(old(State()), n)
    {
      if n in blocks {
        transfers := RemoveTransfersOf(transfers, n);
        txs := RevertTxsOf(txs, n);
      }
    }

    /** The participants of a block, in the order the slices are filled. */
    method Participants(mb: MinedBlock) returns (list: seq<Address>)
      ensures Elements(list) == TxAddresses(mb.transactions) + TransferAddresses(mb.transfers)
    {
      list := [];
      for i := 0 to |mb.transactions|
        invariant Elements(list) == TxAddresses(mb.transactions[..i])
      {
        var t := mb.transactions[i];
        assert mb.transactions[..i + 1] == mb.transactions[..i] + [t];
        OneMoreTx(mb.transactions[..i], t);
        assert Elements(list + [t.from, t.to]) == Elements(list) + {t.from, t.to};
        list := list + [t.from, t.to];
      }
      assert mb.transactions[..|mb.transactions|] == mb.transactions;
      for i := 0 to |mb.transfers|
        invariant Elements(list) == TxAddresses(mb.transactions) + TransferAddresses(mb.transfers[..i])
      {
        var tt := mb.transfers[i];
        assert mb.transfers[..i + 1] == mb.transfers[..i] + [tt];
        OneMoreTransfer(mb.transfers[..i], tt);
        assert Elements(list + [tt.token, tt.from, tt.to]) == Elements(list) + {tt.token, tt.from, tt.to};
        list := list + [tt.token, tt.from, tt.to];
      }
      assert mb.transfers[..|mb.transfers|] == mb.transfers;
    }

    method RecordBlockBody(mb: MinedBlock, now: Time) returns (err: Option<SqlError>)
      modifies this
      ensures match RecordBlock(old(State()), mb, now)
              case Ok(after) => err.None? && State() == after
              case Err(e) => err == Some(e)
    {
      Undo(mb.block.number);
      if HashTakenElsewhere(State(), mb.block) { return Some(UniqueViolation); }
      blocks := blocks[mb.block.number := BlockRow(mb.block, now)];
      var participants := Participants(mb);
      err := UpsertAccounts(participants, mb.block.minedAt);
    }

    /** The created contracts and the transactions to enqueue, gathered in one pass. */
    method Gather(list: seq<Tx>) returns (created: seq<Address>, jobHashes: seq<Hash>)
      ensures Elements(created) == CreatedContracts(list)
      ensures Elements(jobHashes) == JobHashes(list)
    {
      created, jobHashes := [], [];
      for i := 0 to |list|
        invariant Elements(created) == CreatedContracts(list[..i])
        invariant Elements(jobHashes) == JobHashes(list[..i])
      {
        var t := list[i];
        assert list[..i + 1] == list[..i] + [t];
        OneMoreTx(list[..i], t);
        assert Elements(created + [t.created]) == Elements(created) + {t.created};
        assert Elements(jobHashes + [t.hash]) == Elements(jobHashes) + {t.hash};
        if t.created != "" { created := created + [t.created]; }
        if t.to != "" || t.created != "" { jobHashes := jobHashes + [t.hash]; }
      }
      assert list[..|list|] == list;
    }

    method PromoteRows(mb: MinedBlock)
      requires DistinctHashes(mb.transactions)
      modifies this`txs
      ensures txs == PromoteTxs(old(txs), mb)
    {
      var list := mb.transactions;
      for i := 0 to |list|
        invariant PromotedTo(old(txs), mb, i, txs)
      {
        PromoteNext(old(txs), mb, i, txs);
        txs := txs[list[i].hash := MinedRow(txs, mb, list[i])];
      }
      PromotedAll(old(txs), mb, txs);
    }

    /** Insert the created contracts as accounts and mark them. */
    method UpsertCreated(list: seq<Tx>, minedAt: Time) returns (err: Option<SqlError>, jobHashes: seq<Hash>)
      modifies this`accounts
      ensures Elements(jobHashes) == JobHashes(list)
      ensures match Ledger.UpsertAccounts(old(accounts), CreatedContracts(list), minedAt)
              case Ok(upserted) => err.None? && accounts == MarkContracts(upserted, CreatedContracts(list))
              case Err(e) => err == Some(e)
    {
      var created;
      created, jobHashes := Gather(list);
      err := UpsertAccounts(created, minedAt);
      if err.Some? { return; }
      accounts := MarkContracts(accounts, Elements(created));
    }

    method PromoteAndEnqueue(mb: MinedBlock, jobHashes: seq<Hash>, now: Time)
      requires DistinctHashes(mb.transactions) && Elements(jobHashes) == JobHashes(mb.transactions)
      modifies this`txs, this`jobs
      ensures txs == MarkReplaced(PromoteTxs(old(txs), mb), mb.transactions)
      ensures jobs == Enqueue(old(jobs), JobHashes(mb.transactions), now)
    {
      PromoteRows(mb);
      txs := MarkReplaced(txs, mb.transactions);
      EnqueueJobs(jobHashes, now);
    }

    method UpsertMinedBody(mb: MinedBlock, now: Time) returns (err: Option<SqlError>)
      modifies this
      ensures match UpsertMined(old(State()), mb, now)
              case Ok(after) => err.None? && State() == after
              case Err(e) => err == Some(e)
    {
      var list := mb.transactions;
      var jobHashes;
      err, jobHashes := UpsertCreated(list, mb.block.minedAt);
      if err.Some? { return; }
      if !DistinctHashes(list) { return Some(CardinalityViolation); }
      if SenderUnknown(txs, accounts, list) { return Some(ForeignKeyViolation); }
      PromoteAndEnqueue(mb, jobHashes, now);
    }

    method InsertTransfersBody(n: nat, list: seq<Transfer>, now: Time) returns (err: Option<SqlError>)
      modifies this`transfers, this`jobs
      ensures match InsertTransfers(old(State()), n, list, now)
              case Ok(after) => err.None? && State() == after
              case Err(e) => err == Some(e)
    {
      if exists tt | tt in list :: !ReferencesResolve(State(), tt) { return Some(ForeignKeyViolation); }
      assert list[0..] == list;
      var i := 0;
      while i < |list|
        invariant 0 <= i <= |list|
        invariant jobs == old(jobs)
        invariant InsertRows(transfers, n, list[i..]) == InsertRows(old(transfers), n, list)
      {
        InsertRowsStep(transfers, n, list, i);
        var tt := list[i];
        if Key(tt) !in transfers {
          transfers := transfers[Key(tt) := TransferRow(n, tt.token, tt.from, tt.to, tt.amount)];
        }
        i := i + 1;
      }
      jobs := Requeue(jobs, TransferHashes(list), now);
      return None;
    }

    method SaveBlockBody(mb: MinedBlock, now: Time) returns (err: Option<SqlError>)
      modifies this
      ensures match SaveBlock(old(State()), mb, now)
              case Ok(after) => err.None? && State() == after
              case Err(e) => err == Some(e)
    {
      if AlreadyStored(State(), mb) { return None; }
      err := RecordBlockBody(mb, now);
      if err.Some? { return; }
      if |mb.transactions| > 0 {
        err := UpsertMinedBody(mb, now);
        if err.Some? { return; }
      }
      if |mb.transfers| > 0 {
        err := InsertTransfersBody(mb.block.number, mb.transfers, now);
      }
    }

    // ----- Transactions -----

    /** Run the write, rolling back whatever it did if it failed. */
    method BeginFunc(w: Write, env: Env) returns (err: Option<SqlError>)
      modifies this
      ensures match TryOnce(old(State()), w, env)
              case Ok(after) => err.None? && State() == after
              case Err(e) => err == Some(e) && State() == old(State())
    {
      var before := (blocks, txs, transfers, accounts, jobs);
      match w {
        case WritePending(tx) => err := SavePendingBody(tx, env.now);
        case WriteBlock(mb) => err := SaveBlockBody(mb, env.now);
      }
      if env.fault.Some? { err := env.fault; }
      if err.Some? {
        blocks, txs, transfers, accounts, jobs := before.0, before.1, before.2, before.3, before.4;
      }
    }

    /** Other writers commit. */
    method OthersCommit(others: Others)
      modifies this
      ensures State() == others(old(State()))
    {
      var left := others(State());
      blocks, txs, transfers, accounts, jobs := left.blocks, left.txs, left.transfers, left.accounts, left.jobs;
    }

    /** One attempt and, if it is to be tried again, what the other writers do during the back-off. */
    method TryAttempt(w: Write, e: Env, last: bool) returns (err: Option<SqlError>, again: bool)
      modifies this
      ensures again <==> !last && TriesAgain(e)
      ensures again ==> State() == e.others(old(State()))
      ensures !again ==> Ends(old(State()), e, last, Apply(old(State()), w, e.now), err, State())
    {
      OwnErrors(State(), w, e.now);
      err := BeginFunc(w, e);
      if err.None? || !Retryable(err.value) || last || e.cancelled { return err, false; }
      OthersCommit(e.others);
      if e.cancelledWaiting { return Some(Cancelled), false; }
      return err, true;
    }

    /** withTx: the write takes effect once or not at all, at the last of at most five attempts, on the
        tables as the other writers left them, and exactly as that attempt ends. */
    method WithTx(w: Write, env: seq<Env>) returns (err: Option<SqlError>, attempts: nat)
      requires |env| == 5
      modifies this
      ensures 1 <= attempts <= 5
      ensures var k := attempts - 1;
        EndsAt(old(State()), env, k, Apply(Found(old(State()), env, k), w, env[k].now), err, State())
    {
      attempts := 1;
      while true
        invariant 1 <= attempts <= MAX_TX_ATTEMPTS
        invariant State() == Found(old(State()), env, attempts - 1)
        invariant forall j | 0 <= j < attempts - 1 :: TriesAgain(env[j])
        decreases MAX_TX_ATTEMPTS - attempts
      {
        var again;
        err, again := TryAttempt(w, env[attempts - 1], attempts == MAX_TX_ATTEMPTS);
        if !again { return; }
        attempts := attempts + 1;
      }
    }

    /** The pending write takes effect once, on the tables the other writers left, if its last attempt meets no
        fault and breaks no constraint; otherwise the reason is reported and only the others have acted. */
    method SaveTransaction(tx: Tx, env: seq<Env>) returns (err: Option<SqlError>)
      requires |env| == 5
      modifies this
      ensures exists k | 0 <= k < 5 ::
        EndsAt(old(State()), env, k, SavePending(Found(old(State()), env, k), tx, env[k].now), err, State())
    {
      var attempts;
      err, attempts := WithTx(WritePending(tx), env);
      ghost var k := attempts - 1;
      assert EndsAt(old(State()), env, k, SavePending(Found(old(State()), env, k), tx, env[k].now), err, State());
    }

    /** The block write likewise. */
    method SaveMinedBlock(mb: MinedBlock, env: seq<Env>) returns (err: Option<SqlError>)
      requires |env| == 5
      modifies this
      ensures exists k | 0 <= k < 5 ::
        EndsAt(old(State()), env, k, SaveBlock(Found(old(State()), env, k), mb, env[k].now), err, State())
    {
      var attempts;
      err, attempts := WithTx(WriteBlock(mb), env);
      ghost var k := attempts - 1;
      assert EndsAt(old(State()), env, k, SaveBlock(Found(old(State()), env, k), mb, env[k].now), err, State());
    }

    // ----- Maintenance and the queue -----

    /** The number returned is that of the rows that changed. */
    method MarkDroppedTransactions(olderThan: Time, now: Time) returns (affected: nat)
      modifies this`txs
      ensures DroppedExactly(old(txs), txs, olderThan, now) && affected == |Changed(old(txs), txs)|
      ensures State() == Step(old(State()), DropOld(olderThan, now))
    {
      DropOldStep(State(), olderThan, now);
      affected := Sweep(now - olderThan);
      SweptRows(old(txs), txs, olderThan, now);
    }

    /** The UPDATE itself, row by row. */
    method Sweep(cutoff: Time) returns (affected: nat)
      modifies this`txs
      ensures txs == DropStale(old(txs), cutoff) && affected == |StaleRows(old(txs), cutoff)|
    {
      affected := 0;
      var todo := txs.Keys;
      SweepStarts(txs, cutoff);
      while todo != {}
        invariant SweptBut(old(txs), cutoff, todo, txs) && CountedBut(old(txs), cutoff, todo, affected)
        decreases todo
      {
        var h :| h in todo;
        SweepNext(old(txs), cutoff, todo, txs, h);
        SweepCounts(old(txs), cutoff, todo, affected, h);
        todo := todo - {h};
        if txs[h].status == Pending && txs[h].timestamp < cutoff {
          txs, affected := txs[h := txs[h].(status := Dropped)], affected + 1;
        }
      }
      SweepEnds(old(txs), cutoff, txs, affected);
    }

    /** ORDER BY available_at, updated_at. */
    predicate Ahead(a: JobRow, b: JobRow) {
      a.availableAt < b.availableAt || (a.availableAt == b.availableAt && a.updatedAt <= b.updatedAt)
    }

    /** ClaimEnrichmentJob. Rows locked by concurrent claims are skipped. Of the jobs left that are queued, or
        in processing under a lock of two minutes or more, and whose time has come, the one open longest is
        taken, by the last update among equals; none only if there is none. */
    method ClaimEnrichmentJob(locked: set<Hash>, now: Time) returns (claimed: Option<Hash>)
      modifies this`jobs
      ensures claimed.None? <==> forall h | h in old(jobs) && h !in locked :: !Due(old(jobs)[h], now)
      ensures claimed.None? ==> jobs == old(jobs)
      ensures claimed.Some? ==>
        && claimed.value in old(jobs) && claimed.value !in locked && Due(old(jobs)[claimed.value], now)
        && forall h | h in old(jobs) && h !in locked && Due(old(jobs)[h], now) ::
             || old(jobs)[claimed.value].availableAt < old(jobs)[h].availableAt
             || (old(jobs)[claimed.value].availableAt == old(jobs)[h].availableAt
                 && old(jobs)[claimed.value].updatedAt <= old(jobs)[h].updatedAt)
      ensures claimed.Some? ==>
        && jobs.Keys == old(jobs).Keys && (forall h | h in jobs && h != claimed.value :: jobs[h] == old(jobs)[h])
        && var was, job := old(jobs)[claimed.value], jobs[claimed.value];
        && job.status == Processing && job.lockedAt == Some(now) && job.updatedAt == now
        && job.attempts == was.attempts + 1 && job.availableAt == was.availableAt && job.hasError == was.hasError
      ensures claimed.Some? ==>
        && Enabled(old(State()), Claim(claimed.value, now))
        && State() == Step(old(State()), Claim(claimed.value, now))
    {
      DueExactly(now);
      claimed := None;
      var todo := jobs.Keys - locked;
      while todo != {}
        invariant todo <= jobs.Keys - locked
        invariant claimed.None? ==> forall h | h in jobs.Keys - locked - todo :: !Claimable(jobs[h], now, now - LEASE)
        invariant claimed.Some? ==>
          && claimed.value in jobs.Keys - locked && Claimable(jobs[claimed.value], now, now - LEASE)
          && forall h | h in jobs.Keys - locked - todo && Claimable(jobs[h], now, now - LEASE) ::
               Ahead(jobs[claimed.value], jobs[h])
        decreases todo
      {
        var h :| h in todo;
        todo := todo - {h};
        if Claimable(jobs[h], now, now - LEASE) && (claimed.None? || !Ahead(jobs[claimed.value], jobs[h])) {
          claimed := Some(h);
        }
      }
      if claimed.Some? {
        jobs := jobs[claimed.value := ClaimJob(jobs[claimed.value], now)];
      }
    }

    /** A job in processing is done for good: nobody can claim it any more. Any other job, and every
        other hash, stays as it was. */
    method MarkEnrichmentDone(hash: Hash, now: Time)
      modifies this`jobs
      ensures jobs.Keys == old(jobs).Keys && forall h | h in jobs && h != hash :: jobs[h] == old(jobs)[h]
      ensures hash in jobs && old(jobs)[hash].status != Processing ==> jobs[hash] == old(jobs)[hash]
      ensures hash in jobs && old(jobs)[hash].status == Processing ==>
        && jobs[hash].status == Done && jobs[hash].lockedAt.None? && !jobs[hash].hasError
        && jobs[hash].attempts == old(jobs)[hash].attempts && jobs[hash].updatedAt == now
        && jobs[hash].availableAt == old(jobs)[hash].availableAt
        && forall t :: !Due(jobs[hash], t)
      ensures State() == Step(old(State()), Complete(hash, now))
    {
      if hash in jobs && jobs[hash].status == Processing {
        jobs := jobs[hash := jobs[hash].(status := Done, lockedAt := None, hasError := false, updatedAt := now)];
      } else if hash in jobs {
        assert jobs[hash := jobs[hash]] == jobs;
      }
    }

    /** A job in processing is released: after its sixth attempt it is failed and can never be claimed
        again; before, it is queued and can be claimed exactly from the end of its back-off on. */
    method MarkEnrichmentFailed(hash: Hash, now: Time)
      modifies this`jobs
      ensures jobs.Keys == old(jobs).Keys && forall h | h in jobs && h != hash :: jobs[h] == old(jobs)[h]
      ensures hash in jobs && old(jobs)[hash].status != Processing ==> jobs[hash] == old(jobs)[hash]
      ensures hash in jobs && old(jobs)[hash].status == Processing ==>
        && jobs[hash].lockedAt.None? && jobs[hash].hasError && jobs[hash].updatedAt == now
        && jobs[hash].attempts == old(jobs)[hash].attempts
        && jobs[hash].status == (if jobs[hash].attempts < 6 then Queued else Failed)
        && jobs[hash].availableAt == now + WAITS[Min(jobs[hash].attempts, 6)]
        && forall t :: Due(jobs[hash], t) <==> jobs[hash].attempts < 6 && t >= jobs[hash].availableAt
      ensures State() == Step(old(State()), Fail(hash, now))
    {
      if hash !in jobs { return; }
      var job := jobs[hash];
      if job.status != Processing {
        assert jobs[hash := job] == jobs;
        return;
      }
      var next := if job.attempts >= MAX_ATTEMPTS then Failed else Queued;
      var wait := Min(Pow2(job.attempts) * 5, 300) * SECOND;
      WaitExactly(job.attempts);
      jobs := jobs[hash := job.(
        status := next, lockedAt := None, hasError := true, availableAt := now + wait, updatedAt := now)];
    }

    /** PruneEnrichmentJobs: at most a batch of finished old jobs, all of them if they fit. */
    method PruneEnrichmentJobs(olderThan: Time, now: Time) returns (pruned: set<Hash>)
      modifies this`jobs
      ensures |pruned| <= 10000 && pruned <= old(jobs).Keys
      ensures jobs.Keys == old(jobs).Keys - pruned && forall h | h in jobs :: jobs[h] == old(jobs)[h]
      ensures forall h | h in pruned :: old(jobs)[h].status == Done && now - old(jobs)[h].updatedAt > olderThan
      ensures |pruned| < 10000 ==>
        forall h | h in jobs :: !(jobs[h].status == Done && now - jobs[h].updatedAt > olderThan)
      ensures Enabled(old(State()), Prune(pruned, olderThan, now))
      ensures State() == Step(old(State()), Prune(pruned, olderThan, now))
    {
      pruned := {};
      var todo := jobs.Keys;
      while todo != {} && |pruned| < PRUNE_BATCH
        invariant todo <= jobs.Keys && pruned <= jobs.Keys - todo && |pruned| <= PRUNE_BATCH
        invariant forall h | h in pruned :: Prunable(jobs[h], now - olderThan)
        invariant forall h | h in jobs.Keys - todo - pruned :: !Prunable(jobs[h], now - olderThan)
        decreases todo
      {
        var h :| h in todo;
        todo := todo - {h};
        if Prunable(jobs[h], now - olderThan) {
          pruned := pruned + {h};
        }
      }
      jobs := jobs - pruned;
    }
  }
}
