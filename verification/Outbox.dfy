/** The transactional outbox: database, workers and what they have projected, as one system.
    A worker claims a job, reads the stored token transfers, projects them, and marks the job. */
module Outbox {
  import opened Prelude
  import opened Schema
  import opened Ledger
  import opened LedgerInvariant
  import opened Reorg

  type Rows = map<TransferKey, TransferRow>

  /** Where a worker is in its loop. `at` is the moment of its claim. */
  datatype Phase =
    | Idle
    | Claimed(hash: Hash, at: nat)
    | HasRead(hash: Hash, at: nat, rows: Rows)
    | Succeeded(hash: Hash, at: nat, rows: Rows)
    | Erred(hash: Hash, at: nat)

  /** An enrichment that projected everything it read. */
  datatype Success = Success(hash: Hash, at: nat, rows: Rows)

  /** The tables, the workers, and the history the claims are about: when each hash was last
      re-queued by its token transfers, what was enriched, and which jobs were pruned. */
  datatype System = System(
    db: Db, workers: seq<Phase>, clock: nat,
    requeued: map<Hash, nat>, successes: set<Success>, pruned: set<Hash>)

  datatype Action =
    | Write(op: Op)
    | ClaimBy(worker: nat, hash: Hash, now: Time)
    | Read(worker: nat)
    | Finish(worker: nat, ok: bool)
    | Mark(worker: nat, now: Time, lost: bool)
    | Crash(worker: nat)

  function RowsOf(db: Db, h: Hash): Rows {
    map k | k in db.transfers && k.txHash == h :: db.transfers[k]
  }

  predicate IsWriter(op: Op) {
    op.SaveTx? || op.SaveMined? || op.TouchAccount? || op.DropOld? || op.Prune?
  }

  function Requeued(s: System, op: Op): map<Hash, nat> {
    if Effective(s.db, op)
    then map h | h in s.requeued.Keys + TransferHashes(op.mb.transfers) ::
           if h in TransferHashes(op.mb.transfers) then s.clock else s.requeued[h]
    else s.requeued
  }

  predicate Possible(s: System, a: Action) {
    match a
    case Write(op) => IsWriter(op)
    case ClaimBy(w, h, now) => w < |s.workers| && s.workers[w].Idle? && Enabled(s.db, Claim(h, now))
    case Read(w) => w < |s.workers| && s.workers[w].Claimed?
    case Finish(w, ok) => w < |s.workers| && (s.workers[w].HasRead? || (s.workers[w].Claimed? && !ok))
    case Mark(w, _, _) => w < |s.workers| && (s.workers[w].Succeeded? || s.workers[w].Erred?)
    case Crash(w) => w < |s.workers|
  }

  function Next(s: System, a: Action): System
    requires Possible(s, a)
  {
    var t := s.(clock := s.clock + 1);
    match a
    case Write(op) =>
      t.(db := Step(s.db, op), requeued := Requeued(s, op),
         pruned := if op.Prune? && Enabled(s.db, op) then s.pruned + op.hashes else s.pruned)
    case ClaimBy(w, h, now) =>
      t.(db := Step(s.db, Claim(h, now)), workers := s.workers[w := Claimed(h, s.clock)])
    case Read(w) =>
      var p := s.workers[w];
      t.(workers := s.workers[w := HasRead(p.hash, p.at, RowsOf(s.db, p.hash))])
    case Finish(w, ok) =>
      var p := s.workers[w];
      if ok then t.(workers := s.workers[w := Succeeded(p.hash, p.at, p.rows)],
                    successes := s.successes + {Success(p.hash, p.at, p.rows)})
      else t.(workers := s.workers[w := Erred(p.hash, p.at)])
    case Mark(w, now, lost) =>
      var p := s.workers[w];
      t.(db := if lost then s.db
               else if p.Succeeded? then Step(s.db, Complete(p.hash, now))
               else Step(s.db, Fail(p.hash, now)),
         workers := s.workers[w := Idle])
    case Crash(w) => t.(workers := s.workers[w := Idle])
  }

  ghost predicate IsHistory(states: seq<System>, actions: seq<Action>) {
    && |states| == |actions| + 1
    && forall k | 0 <= k < |actions| :: Possible(states[k], actions[k]) && states[k + 1] == Next(states[k], actions[k])
  }

  ghost predicate Initial(s: System) {
    && s.db == EMPTY && s.requeued == map[] && s.successes == {} && s.pruned == {}
    && forall w | 0 <= w < |s.workers| :: s.workers[w].Idle?
  }

  // ----- What must hold -----

  predicate HasTarget(row: TxRow) { row.to.Some? || row.created.Some? }

  predicate SubRows(a: Rows, b: Rows) {
    forall k | k in a :: k in b && b[k] == a[k]
  }

  /** Some enrichment claimed after the last re-queue projected all transfers stored now. */
  ghost predicate Delivered(s: System, h: Hash) {
    exists x | x in s.successes ::
      && x.hash == h
      && (h in s.requeued ==> s.requeued[h] < x.at)
      && SubRows(RowsOf(s.db, h), x.rows)
  }

  ghost predicate Finished(s: System, h: Hash) {
    if h in s.db.jobs then s.db.jobs[h].status == Done else h in s.pruned
  }

  ghost predicate NothingMissed(s: System) {
    && (forall h | h in s.db.txs && HasTarget(s.db.txs[h]) :: h in s.db.jobs || h in s.pruned)
    && (forall h :: Finished(s, h) ==> Delivered(s, h))
  }

  /** The worker's hash was not re-queued since its claim. */
  predicate Fresh(s: System, p: Phase)
    requires !p.Idle?
  {
    p.hash in s.requeued ==> s.requeued[p.hash] < p.at
  }

  /** Unless its hash was re-queued since, a worker has read every transfer stored now. */
  ghost predicate WorkerOk(s: System, p: Phase) {
    && (!p.Idle? ==> p.at < s.clock)
    && ((p.HasRead? || p.Succeeded?) && Fresh(s, p) ==> SubRows(RowsOf(s.db, p.hash), p.rows))
    && (p.Succeeded? ==> Success(p.hash, p.at, p.rows) in s.successes)
  }

  ghost predicate Inv(s: System) {
    && Consistent(s.db)
    && NothingMissed(s)
    && (forall w | 0 <= w < |s.workers| :: WorkerOk(s, s.workers[w]))
    && (forall h | h in s.requeued :: s.requeued[h] < s.clock)
    && (forall x | x in s.successes :: x.at < s.clock)
  }

  predicate InProcessing(db: Db, h: Hash) { h in db.jobs && db.jobs[h].status == Processing }

  /** A worker marks a job done that was re-queued after its claim and claimed again by another. */
  predicate StaleMark(s: System, a: Action) {
    && a.Mark? && !a.lost && a.worker < |s.workers| && s.workers[a.worker].Succeeded?
    && InProcessing(s.db, s.workers[a.worker].hash) && !Fresh(s, s.workers[a.worker])
  }

  /** Such a mark, before anybody has enriched the hash after the re-queue. */
  ghost predicate LosesRequeue(s: System, a: Action) {
    StaleMark(s, a) && !Delivered(s, s.workers[a.worker].hash)
  }

  // ----- What the writers do to jobs and transfers -----

  predicate InQueue(db: Db, h: Hash) { h in db.jobs && db.jobs[h].status == Queued }

  ghost predicate JobsEffect(db: Db, after: Db) {
    && (forall h | h in db.jobs :: h in after.jobs && (after.jobs[h] == db.jobs[h] || InQueue(after, h)))
    && (forall h | h in after.jobs && h !in db.jobs :: InQueue(after, h))
  }

  ghost predicate TargetsEffect(db: Db, after: Db) {
    forall h | h in after.txs && HasTarget(after.txs[h]) ::
      h in after.jobs || (h in db.txs && HasTarget(db.txs[h]))
  }

  ghost predicate TransfersEffect(db: Db, after: Db, requeued: set<Hash>) {
    && (forall k | k in after.transfers ::
          k.txHash in requeued || (k in db.transfers && after.transfers[k] == db.transfers[k]))
    && (forall h | h in requeued :: InQueue(after, h))
  }

  ghost predicate WriteEffect(db: Db, after: Db, requeued: set<Hash>) {
    JobsEffect(db, after) && TargetsEffect(db, after) && TransfersEffect(db, after, requeued)
  }

  lemma PromoteTargets(db: Db, mb: MinedBlock, now: Time, after: Db)
    requires UpsertMined(db, mb, now) == Ok(after)
    ensures JobsEffect(db, after) && TargetsEffect(db, after) && after.transfers == db.transfers
  {
    var list := mb.transactions;
    var promoted := PromoteTxs(db.txs, mb);
    forall h | h in after.txs && HasTarget(after.txs[h])
      ensures h in after.jobs || (h in db.txs && HasTarget(db.txs[h]))
    {
      if h in HashSet(list) {
        var t := FindTx(list, h);
        assert promoted[h] == MinedRow(db.txs, mb, t);
        assert t.to != "" || t.created != "" ==> h in JobHashes(list);
      }
    }
  }

  lemma RecordTargets(db: Db, mb: MinedBlock, now: Time, after: Db)
    requires Consistent(db) && RecordBlock(db, mb, now) == Ok(after)
    ensures JobsEffect(db, after) && TargetsEffect(db, after)
    ensures after.transfers == RemoveTransfersOf(db.transfers, mb.block.number)
  {
    UndoEffect(db, mb.block.number);
    UndoTargets(db, mb.block.number);
    assert after.jobs == db.jobs && after.txs == UndoBlock(db, mb.block.number).txs;
  }

  lemma UndoTargets(db: Db, n: nat)
    ensures UndoBlock(db, n).txs.Keys == db.txs.Keys
    ensures forall h | h in db.txs :: HasTarget(UndoBlock(db, n).txs[h]) ==> HasTarget(db.txs[h])
  {
  }

  lemma InsertTargets(db: Db, n: nat, list: seq<Transfer>, now: Time, after: Db)
    requires InsertTransfers(db, n, list, now) == Ok(after)
    ensures WriteEffect(db, after, TransferHashes(list))
  {
    forall k | k in after.transfers
      ensures k.txHash in TransferHashes(list) || (k in db.transfers && after.transfers[k] == db.transfers[k])
    {
      InsertRowsEffect(db.transfers, n, list, k);
    }
  }

  lemma Compose(a: Db, b: Db, c: Db, requeued: set<Hash>)
    requires JobsEffect(a, b) && TargetsEffect(a, b)
    requires forall k | k in b.transfers :: k in a.transfers && b.transfers[k] == a.transfers[k]
    requires WriteEffect(b, c, requeued)
    ensures WriteEffect(a, c, requeued)
  {
  }

  lemma SaveBlockTargets(db: Db, mb: MinedBlock, now: Time, after: Db)
    requires Consistent(db) && SaveBlock(db, mb, now) == Ok(after) && !AlreadyStored(db, mb)
    ensures WriteEffect(db, after, TransferHashes(mb.transfers))
  {
    var recorded := RecordBlock(db, mb, now).value;
    RecordTargets(db, mb, now, recorded);
    var promoted := PromoteOrSkip(recorded, mb, now);
    InsertOrSkip(promoted, mb, now, after);
    Compose(recorded, promoted, after, TransferHashes(mb.transfers));
    Compose(db, recorded, after, TransferHashes(mb.transfers));
  }

  lemma PromoteOrSkip(db: Db, mb: MinedBlock, now: Time) returns (after: Db)
    requires mb.transactions == [] || UpsertMined(db, mb, now).Ok?
    ensures after == if mb.transactions == [] then db else UpsertMined(db, mb, now).value
    ensures JobsEffect(db, after) && TargetsEffect(db, after) && after.transfers == db.transfers
  {
    if mb.transactions == [] {
      after := db;
    } else {
      after := UpsertMined(db, mb, now).value;
      PromoteTargets(db, mb, now, after);
    }
  }

  lemma InsertOrSkip(db: Db, mb: MinedBlock, now: Time, after: Db)
    requires if mb.transfers == [] then after == db
             else InsertTransfers(db, mb.block.number, mb.transfers, now) == Ok(after)
    ensures WriteEffect(db, after, TransferHashes(mb.transfers))
  {
    if mb.transfers != [] { InsertTargets(db, mb.block.number, mb.transfers, now, after); }
  }

  lemma NoWrite(db: Db)
    ensures WriteEffect(db, db, {})
  {
  }

  lemma PendingSaved(db: Db, tx: Tx, now: Time, after: Db)
    requires SavePending(db, tx, now) == Ok(after)
    ensures WriteEffect(db, after, {})
  {
  }

  lemma PendingWrite(db: Db, tx: Tx, now: Time)
    ensures WriteEffect(db, Step(db, SaveTx(tx, now)), {})
  {
    match SavePending(db, tx, now)
    case Ok(after) => PendingSaved(db, tx, now, after);
    case Err(_) => NoWrite(db);
  }

  lemma DropWrite(db: Db, olderThan: Time, now: Time)
    ensures WriteEffect(db, Step(db, DropOld(olderThan, now)), {})
  {
  }

  lemma QuietWrite(db: Db, op: Op)
    requires IsWriter(op) && !op.Prune? && !Effective(db, op)
    ensures WriteEffect(db, Step(db, op), {})
  {
    match op
    case SaveTx(tx, now) => PendingWrite(db, tx, now);
    case DropOld(olderThan, now) => DropWrite(db, olderThan, now);
    case TouchAccount(_, _, _) =>
    case SaveMined(_, _) =>
  }

  function RequeuedBy(db: Db, op: Op): set<Hash> {
    if Effective(db, op) then TransferHashes(op.mb.transfers) else {}
  }

  lemma WriterEffect(db: Db, op: Op)
    requires Consistent(db) && IsWriter(op) && !op.Prune?
    ensures WriteEffect(db, Step(db, op), RequeuedBy(db, op))
  {
    if Effective(db, op) {
      SaveBlockTargets(db, op.mb, op.now, Step(db, op));
    } else {
      QuietWrite(db, op);
    }
  }

  // ----- Every action keeps the invariant -----

  /** A write, seen through its effect. */
  lemma WriteKeeps(s: System, t: System, requeued: set<Hash>)
    requires Inv(s) && Consistent(t.db) && WriteEffect(s.db, t.db, requeued)
    requires t.workers == s.workers && t.successes == s.successes && t.pruned == s.pruned
    requires t.clock == s.clock + 1
    requires t.requeued == map h | h in s.requeued.Keys + requeued ::
      if h in requeued then s.clock else s.requeued[h]
    ensures Inv(t)
  {
    forall h | Finished(t, h) ensures Delivered(t, h) {
      assert Finished(s, h);
      WriteKeepsDelivered(s, t, requeued, h);
    }
    forall w | 0 <= w < |t.workers| ensures WorkerOk(t, t.workers[w]) {
      WriteKeepsWorker(s, t, requeued, s.workers[w]);
    }
  }

  lemma RowsShrink(s: Db, t: Db, requeued: set<Hash>, h: Hash, rows: Rows)
    requires TransfersEffect(s, t, requeued) && h !in requeued && SubRows(RowsOf(s, h), rows)
    ensures SubRows(RowsOf(t, h), rows)
  {
    forall k | k in RowsOf(t, h) ensures k in rows && rows[k] == RowsOf(t, h)[k] {
      assert k in RowsOf(s, h);
    }
  }

  lemma WriteKeepsDelivered(s: System, t: System, requeued: set<Hash>, h: Hash)
    requires Delivered(s, h) && h !in requeued && TransfersEffect(s.db, t.db, requeued)
    requires t.successes == s.successes
    requires h in t.requeued ==> h in s.requeued && t.requeued[h] == s.requeued[h]
    ensures Delivered(t, h)
  {
    var x :| x in s.successes && x.hash == h && (h in s.requeued ==> s.requeued[h] < x.at)
      && SubRows(RowsOf(s.db, h), x.rows);
    RowsShrink(s.db, t.db, requeued, h, x.rows);
    assert x in t.successes;
  }

  lemma WriteKeepsWorker(s: System, t: System, requeued: set<Hash>, p: Phase)
    requires WorkerOk(s, p) && TransfersEffect(s.db, t.db, requeued)
    requires t.clock == s.clock + 1 && t.successes == s.successes
    requires t.requeued == map h | h in s.requeued.Keys + requeued ::
      if h in requeued then s.clock else s.requeued[h]
    ensures WorkerOk(t, p)
  {
    if (p.HasRead? || p.Succeeded?) && Fresh(t, p) {
      assert p.hash !in requeued && Fresh(s, p);
      RowsShrink(s.db, t.db, requeued, p.hash, p.rows);
    }
  }

  lemma PruneKeeps(s: System, op: Op)
    requires Inv(s) && op.Prune?
    ensures Inv(Next(s, Write(op)))
  {
    StepKeeps(s.db, op);
    var gone := PrunedJobs(s.db, op);
    assert s.db.jobs - {} == s.db.jobs;
    assert s.pruned + {} == s.pruned;
    PruneEffect(s, Next(s, Write(op)), gone);
  }

  lemma PrunedJobs(db: Db, op: Op) returns (gone: set<Hash>)
    requires op.Prune?
    ensures gone == if Enabled(db, op) then op.hashes else {}
    ensures forall h | h in gone :: h in db.jobs && db.jobs[h].status == Done
    ensures Step(db, op) == db.(jobs := db.jobs - gone)
  {
    gone := if Enabled(db, op) then op.hashes else {};
    assert db.jobs - {} == db.jobs;
  }

  lemma PruneEffect(s: System, t: System, gone: set<Hash>)
    requires Inv(s) && Consistent(t.db)
    requires forall h | h in gone :: h in s.db.jobs && s.db.jobs[h].status == Done
    requires t.db == s.db.(jobs := s.db.jobs - gone)
    requires t == s.(db := t.db, clock := s.clock + 1, pruned := s.pruned + gone)
    ensures Inv(t)
  {
    forall h | Finished(t, h) ensures Delivered(t, h) {
      assert Finished(s, h);
      QueueKeepsDelivered(s, t, h);
    }
    forall w | 0 <= w < |t.workers| ensures WorkerOk(t, t.workers[w]) {
      QueueKeepsWorker(s, t, s.workers[w]);
    }
  }

  lemma QueueKeepsDelivered(s: System, t: System, h: Hash)
    requires Delivered(s, h) && t.db.transfers == s.db.transfers
    requires s.successes <= t.successes && t.requeued == s.requeued
    ensures Delivered(t, h)
  {
    var x :| x in s.successes && x.hash == h && (h in s.requeued ==> s.requeued[h] < x.at)
      && SubRows(RowsOf(s.db, h), x.rows);
    assert RowsOf(t.db, h) == RowsOf(s.db, h);
    assert x in t.successes;
  }

  lemma QueueKeepsWorker(s: System, t: System, p: Phase)
    requires WorkerOk(s, p) && t.db.transfers == s.db.transfers
    requires s.successes <= t.successes && t.requeued == s.requeued && s.clock <= t.clock
    ensures WorkerOk(t, p)
  {
    if !p.Idle? {
      assert RowsOf(t.db, p.hash) == RowsOf(s.db, p.hash);
    }
  }

  /** The jobs after a worker's own step: only the job of h changes, and not silently to done. */
  ghost predicate OwnJobEffect(s: System, t: System, h: Hash) {
    && t.db.txs == s.db.txs && t.db.transfers == s.db.transfers && t.db.jobs.Keys == s.db.jobs.Keys
    && (forall g | g in s.db.jobs && g != h :: t.db.jobs[g] == s.db.jobs[g])
    && (h in s.db.jobs && t.db.jobs[h].status == Done ==> s.db.jobs[h].status == Done || Delivered(t, h))
  }

  /** What a worker's own step leaves alone. */
  ghost predicate OwnStep(s: System, t: System, w: nat) {
    && w < |s.workers| == |t.workers| && t.workers == s.workers[w := t.workers[w]]
    && t.clock == s.clock + 1 && t.requeued == s.requeued && t.pruned == s.pruned
    && s.successes <= t.successes && (forall x | x in t.successes :: x.at < t.clock)
  }

  lemma OwnStepKeeps(s: System, t: System, w: nat, h: Hash)
    requires Inv(s) && Consistent(t.db) && OwnJobEffect(s, t, h)
    requires OwnStep(s, t, w) && WorkerOk(t, t.workers[w])
    ensures Inv(t)
  {
    forall g | Finished(t, g) ensures Delivered(t, g) {
      if Finished(s, g) { QueueKeepsDelivered(s, t, g); }
    }
    forall v | 0 <= v < |t.workers| ensures WorkerOk(t, t.workers[v]) {
      if v != w { QueueKeepsWorker(s, t, s.workers[v]); }
    }
  }

  lemma ClaimEffect(s: System, t: System, h: Hash, now: Time)
    requires Enabled(s.db, Claim(h, now)) && t.db == Step(s.db, Claim(h, now))
    ensures OwnJobEffect(s, t, h)
  {
  }

  lemma ClaimedOk(s: System, a: Action)
    requires a.ClaimBy? && Possible(s, a) && forall x | x in s.successes :: x.at < s.clock
    ensures OwnStep(s, Next(s, a), a.worker) && WorkerOk(Next(s, a), Next(s, a).workers[a.worker])
  {
  }

  lemma ClaimKeeps(s: System, a: Action)
    requires Inv(s) && a.ClaimBy? && Possible(s, a)
    ensures Inv(Next(s, a))
  {
    StepKeeps(s.db, Claim(a.hash, a.now));
    ClaimEffect(s, Next(s, a), a.hash, a.now);
    ClaimedOk(s, a);
    OwnStepKeeps(s, Next(s, a), a.worker, a.hash);
  }

  lemma LocalOk(s: System, a: Action)
    requires (a.Read? || a.Finish? || a.Crash?) && Possible(s, a) && WorkerOk(s, s.workers[a.worker])
    requires forall x | x in s.successes :: x.at < s.clock
    ensures OwnStep(s, Next(s, a), a.worker) && WorkerOk(Next(s, a), Next(s, a).workers[a.worker])
    ensures Next(s, a).db == s.db
  {
  }

  lemma LocalKeeps(s: System, a: Action)
    requires Inv(s) && (a.Read? || a.Finish? || a.Crash?) && Possible(s, a)
    ensures Inv(Next(s, a))
  {
    assert WorkerOk(s, s.workers[a.worker]);
    LocalOk(s, a);
    OwnStepKeeps(s, Next(s, a), a.worker, "");
  }

  /** A worker's mark on the tables. */
  function Marked(s: System, a: Action): Db
    requires a.Mark? && Possible(s, a)
  {
    var p := s.workers[a.worker];
    if a.lost then s.db
    else if p.Succeeded? then Step(s.db, Complete(p.hash, a.now))
    else Step(s.db, Fail(p.hash, a.now))
  }

  lemma MarkIsOwn(s: System, a: Action)
    requires a.Mark? && Possible(s, a) && forall x | x in s.successes :: x.at < s.clock
    ensures OwnStep(s, Next(s, a), a.worker) && WorkerOk(Next(s, a), Next(s, a).workers[a.worker])
    ensures Next(s, a).db == Marked(s, a) && Next(s, a).successes == s.successes
  {
  }

  lemma MarkedConsistent(s: System, a: Action)
    requires Consistent(s.db) && a.Mark? && Possible(s, a)
    ensures Consistent(Marked(s, a))
  {
    StepKeeps(s.db, Complete(s.workers[a.worker].hash, a.now));
    StepKeeps(s.db, Fail(s.workers[a.worker].hash, a.now));
  }

  lemma MarkKeeps(s: System, a: Action)
    requires Inv(s) && a.Mark? && Possible(s, a) && !LosesRequeue(s, a)
    ensures Inv(Next(s, a))
  {
    var p, t := s.workers[a.worker], Next(s, a);
    assert WorkerOk(s, p);
    MarkIsOwn(s, a);
    MarkedConsistent(s, a);
    if !a.lost && p.Succeeded? {
      CompleteEffect(s, t, p, a.now);
    } else {
      FailEffect(s, t, a);
    }
    OwnStepKeeps(s, t, a.worker, p.hash);
  }

  lemma FailEffect(s: System, t: System, a: Action)
    requires a.Mark? && Possible(s, a) && (a.lost || s.workers[a.worker].Erred?) && t.db == Marked(s, a)
    ensures OwnJobEffect(s, t, s.workers[a.worker].hash)
  {
  }

  lemma DeliveredBy(s: System, p: Phase)
    requires p.Succeeded? && WorkerOk(s, p) && Fresh(s, p)
    ensures Delivered(s, p.hash)
  {
    var x := Success(p.hash, p.at, p.rows);
    assert x in s.successes;
  }

  /** A job completed while in processing was delivered by the worker that completes it, or before. */
  lemma CompleteEffect(s: System, t: System, p: Phase, now: Time)
    requires p.Succeeded? && WorkerOk(s, p)
    requires InProcessing(s.db, p.hash) ==> Fresh(s, p) || Delivered(s, p.hash)
    requires t.db == Step(s.db, Complete(p.hash, now))
    requires t.successes == s.successes && t.requeued == s.requeued
    ensures OwnJobEffect(s, t, p.hash)
  {
    if InProcessing(s.db, p.hash) {
      if Fresh(s, p) { DeliveredBy(s, p); }
      QueueKeepsDelivered(s, t, p.hash);
    }
  }

  /** The stale mark finishes a job nobody has delivered. */
  lemma StaleMarkLoses(s: System, a: Action)
    requires Possible(s, a) && LosesRequeue(s, a)
    ensures !NothingMissed(Next(s, a))
  {
    var h, t := s.workers[a.worker].hash, Next(s, a);
    assert t.db.transfers == s.db.transfers && t.successes == s.successes && t.requeued == s.requeued;
    assert RowsOf(t.db, h) == RowsOf(s.db, h);
    assert Finished(t, h) && !Delivered(t, h);
  }

  lemma WriteActionKeeps(s: System, op: Op)
    requires Inv(s) && IsWriter(op) && !op.Prune?
    ensures Inv(Next(s, Write(op)))
  {
    StepKeeps(s.db, op);
    WriterEffect(s.db, op);
    var t := Next(s, Write(op));
    assert t.requeued == map h | h in s.requeued.Keys + RequeuedBy(s.db, op) ::
      if h in RequeuedBy(s.db, op) then s.clock else s.requeued[h];
    WriteKeeps(s, t, RequeuedBy(s.db, op));
  }

  /** Every action of writers and workers, shared claims and lost leases included, keeps the outbox if
      and only if it is not a mark that loses a re-queue. */
  lemma ActionExact(s: System, a: Action)
    requires Inv(s) && Possible(s, a)
    ensures Inv(Next(s, a)) <==> !LosesRequeue(s, a)
    ensures NothingMissed(Next(s, a)) <==> !LosesRequeue(s, a)
  {
    if LosesRequeue(s, a) {
      StaleMarkLoses(s, a);
    } else {
      match a
      case Write(op) => if op.Prune? { PruneKeeps(s, op); } else { WriteActionKeeps(s, op); }
      case ClaimBy(_, _, _) => ClaimKeeps(s, a);
      case Mark(_, _, _) => MarkKeeps(s, a);
      case Read(_) => LocalKeeps(s, a);
      case Finish(_, _) => LocalKeeps(s, a);
      case Crash(_) => LocalKeeps(s, a);
    }
  }

  lemma InitialInv(s: System)
    requires Initial(s)
    ensures Inv(s)
  {
    EmptyConsistent();
  }

  /** As long as no mark loses a re-queue, the invariant holds. */
  lemma {:induction false} HistoryKeeps(states: seq<System>, actions: seq<Action>, k: nat)
    requires IsHistory(states, actions) && Initial(states[0]) && k < |states|
    requires forall i | 0 <= i < k :: !LosesRequeue(states[i], actions[i])
    ensures Inv(states[k])
  {
    if k == 0 {
      InitialInv(states[0]);
    } else {
      HistoryKeeps(states, actions, k - 1);
      ActionExact(states[k - 1], actions[k - 1]);
    }
  }

  lemma {:induction false} FirstLoss(states: seq<System>, actions: seq<Action>, k: nat)
    requires IsHistory(states, actions) && Initial(states[0]) && k < |actions| && LosesRequeue(states[k], actions[k])
    ensures exists i | 0 <= i < |states| :: !NothingMissed(states[i])
  {
    if i :| 0 <= i < k && LosesRequeue(states[i], actions[i]) {
      FirstLoss(states, actions, i);
    } else {
      HistoryKeeps(states, actions, k);
      ActionExact(states[k], actions[k]);
      var n := k + 1;
      assert !NothingMissed(states[n]);
    }
  }

  /** Nothing committed is missed, exactly: throughout a history each stored transaction with a target
      has a job or had one pruned, and a done or pruned job was enriched after its last re-queue, with
      all the transfers stored for it, if and only if no mark loses a re-queue. */
  lemma OutboxExact(states: seq<System>, actions: seq<Action>)
    requires IsHistory(states, actions) && Initial(states[0])
    ensures (forall k | 0 <= k < |states| :: NothingMissed(states[k])) <==>
      (forall k | 0 <= k < |actions| :: !LosesRequeue(states[k], actions[k]))
  {
    if forall k | 0 <= k < |actions| :: !LosesRequeue(states[k], actions[k]) {
      forall k | 0 <= k < |states| ensures NothingMissed(states[k]) { HistoryKeeps(states, actions, k); }
    } else {
      var k :| 0 <= k < |actions| && LosesRequeue(states[k], actions[k]);
      FirstLoss(states, actions, k);
    }
  }

  /** A guard to check at the mark: without a stale mark nothing is missed, whoever shares a claim. */
  lemma NothingMissedUnlessStale(states: seq<System>, actions: seq<Action>, k: nat)
    requires IsHistory(states, actions) && Initial(states[0]) && k < |states|
    requires forall i | 0 <= i < |actions| :: !StaleMark(states[i], actions[i])
    ensures NothingMissed(states[k])
  {
    OutboxExact(states, actions);
  }

  // ----- Exclusive claims have no stale marks -----

  predicate Busy(s: System, h: Hash) {
    exists w | 0 <= w < |s.workers| :: !s.workers[w].Idle? && s.workers[w].hash == h
  }

  /** No job is claimed while an earlier claimant of the same hash is still working. */
  predicate Exclusive(s: System, a: Action) {
    a.ClaimBy? ==> !Busy(s, a.hash)
  }

  ghost predicate OneWorkerPerHash(workers: seq<Phase>) {
    forall v, w | 0 <= v < w < |workers| && !workers[v].Idle? && !workers[w].Idle? ::
      workers[v].hash != workers[w].hash
  }

  /** A job in processing was not re-queued since the claim of the worker at work on it. */
  ghost predicate FreshWorker(s: System, p: Phase) {
    !p.Idle? && InProcessing(s.db, p.hash) ==> Fresh(s, p)
  }

  ghost predicate NoneStale(s: System) {
    OneWorkerPerHash(s.workers) && forall w | 0 <= w < |s.workers| :: FreshWorker(s, s.workers[w])
  }

  lemma WriteKeepsFresh(s: System, op: Op)
    requires Inv(s) && NoneStale(s) && IsWriter(op) && !op.Prune?
    ensures NoneStale(Next(s, Write(op)))
  {
    WriterEffect(s.db, op);
    var t := Next(s, Write(op));
    forall w | 0 <= w < |t.workers| ensures FreshWorker(t, t.workers[w]) {
      assert FreshWorker(s, s.workers[w]);
      WrittenFresh(s, t, RequeuedBy(s.db, op), s.workers[w]);
    }
  }

  lemma WrittenFresh(s: System, t: System, requeued: set<Hash>, p: Phase)
    requires WriteEffect(s.db, t.db, requeued) && FreshWorker(s, p)
    requires forall h | h in t.requeued && h !in requeued :: h in s.requeued && t.requeued[h] == s.requeued[h]
    ensures FreshWorker(t, p)
  {
    if !p.Idle? && InProcessing(t.db, p.hash) { assert !InQueue(t.db, p.hash); }
  }

  lemma PruneKeepsFresh(s: System, op: Op)
    requires NoneStale(s) && op.Prune?
    ensures NoneStale(Next(s, Write(op)))
  {
    var gone := PrunedJobs(s.db, op);
    var t := Next(s, Write(op));
    assert t.db == s.db.(jobs := s.db.jobs - gone);
    forall w | 0 <= w < |t.workers| ensures FreshWorker(t, t.workers[w]) { assert FreshWorker(s, s.workers[w]); }
  }

  lemma ClaimKeepsFresh(s: System, a: Action)
    requires Inv(s) && NoneStale(s) && a.ClaimBy? && Possible(s, a) && Exclusive(s, a)
    ensures NoneStale(Next(s, a))
  {
    var t := Next(s, a);
    NotBusy(s, a.hash);
    ClaimEffect(s, t, a.hash, a.now);
    forall w | 0 <= w < |t.workers| ensures FreshWorker(t, t.workers[w]) { assert FreshWorker(s, s.workers[w]); }
  }

  lemma NotBusy(s: System, h: Hash)
    requires !Busy(s, h)
    ensures forall v | 0 <= v < |s.workers| && !s.workers[v].Idle? :: s.workers[v].hash != h
  {
  }

  lemma LocalKeepsFresh(s: System, a: Action)
    requires NoneStale(s) && (a.Read? || a.Finish? || a.Crash?) && Possible(s, a)
    ensures NoneStale(Next(s, a))
  {
    var t := Next(s, a);
    assert FreshWorker(s, s.workers[a.worker]);
    forall w | 0 <= w < |t.workers| ensures FreshWorker(t, t.workers[w]) { assert FreshWorker(s, s.workers[w]); }
  }

  lemma MarkKeepsFresh(s: System, a: Action)
    requires NoneStale(s) && a.Mark? && Possible(s, a)
    ensures NoneStale(Next(s, a))
  {
    var t := Next(s, a);
    forall w | 0 <= w < |t.workers| ensures FreshWorker(t, t.workers[w]) { assert FreshWorker(s, s.workers[w]); }
  }

  lemma ExclusiveKeepsFresh(s: System, a: Action)
    requires Inv(s) && NoneStale(s) && Possible(s, a) && Exclusive(s, a)
    ensures NoneStale(Next(s, a)) && !StaleMark(s, a)
  {
    if a.Mark? { assert FreshWorker(s, s.workers[a.worker]); }
    match a
    case Write(op) => if op.Prune? { PruneKeepsFresh(s, op); } else { WriteKeepsFresh(s, op); }
    case ClaimBy(_, _, _) => ClaimKeepsFresh(s, a);
    case Mark(_, _, _) => MarkKeepsFresh(s, a);
    case Read(_) => LocalKeepsFresh(s, a);
    case Finish(_, _) => LocalKeepsFresh(s, a);
    case Crash(_) => LocalKeepsFresh(s, a);
  }

  /** In particular nothing is missed while no claim is shared. */
  lemma {:induction false} OutboxMissesNothing(states: seq<System>, actions: seq<Action>, k: nat)
    requires IsHistory(states, actions) && Initial(states[0]) && k < |states|
    requires forall i | 0 <= i < |actions| :: Exclusive(states[i], actions[i])
    ensures Inv(states[k]) && NoneStale(states[k])
  {
    if k == 0 {
      InitialInv(states[0]);
    } else {
      OutboxMissesNothing(states, actions, k - 1);
      ExclusiveKeepsFresh(states[k - 1], actions[k - 1]);
      ActionExact(states[k - 1], actions[k - 1]);
    }
  }

  // ----- A shared claim that loses a re-queue -----

  /** A worker that was overtaken by a re-queue completes a colleague's claim: the job is done,
      yet nobody enriched it after the re-queue. */
  lemma SharedClaimLosesRequeue(s: System, v: nat, w: nat, h: Hash, op: Op) returns (s1: System, t: System)
    requires Inv(s) && v < |s.workers| && w < |s.workers| && v != w
    requires s.workers[v].HasRead? && s.workers[v].hash == h && s.workers[w].Idle?
    requires op.SaveMined? && Effective(s.db, op) && h in TransferHashes(op.mb.transfers)
    requires h in s.db.jobs && s.db.jobs[h].status == Processing
    ensures s1 == Next(s, Write(op)) && OvertakenRun(s1, v, w, h, op.now, t)
    ensures h in t.db.jobs && t.db.jobs[h].status == Done && !Delivered(t, h)
  {
    s1 := AfterRequeue(s, h, op);
    assert WorkerOk(s, s.workers[v]);
    t := Overtaken(s1, v, w, h, op.now);
  }

  /** Worker w claims the job although v is still working on it; v then succeeds and marks it. */
  ghost predicate OvertakenRun(s: System, v: nat, w: nat, h: Hash, now: Time, t: System) {
    && Possible(s, ClaimBy(w, h, now)) && !Exclusive(s, ClaimBy(w, h, now))
    && var s2 := Next(s, ClaimBy(w, h, now));
    && Possible(s2, Finish(v, true))
    && var s3 := Next(s2, Finish(v, true));
    && Possible(s3, Mark(v, now, false)) && t == Next(s3, Mark(v, now, false))
  }

  lemma Overtaken(s: System, v: nat, w: nat, h: Hash, now: Time) returns (t: System)
    requires v < |s.workers| && w < |s.workers| && v != w
    requires s.workers[v].HasRead? && s.workers[v].hash == h && s.workers[w].Idle?
    requires h in s.db.jobs && s.db.jobs[h] == NewJob(now)
    requires h in s.requeued && s.requeued[h] >= s.workers[v].at
    requires forall x | x in s.successes :: s.requeued[h] >= x.at
    ensures OvertakenRun(s, v, w, h, now, t)
    ensures h in t.db.jobs && t.db.jobs[h].status == Done && !Delivered(t, h)
  {
    assert Busy(s, h);
    var s2 := Next(s, ClaimBy(w, h, now));
    var s3 := Next(s2, Finish(v, true));
    t := Next(s3, Mark(v, now, false));
  }

  lemma AfterRequeue(s: System, h: Hash, op: Op) returns (t: System)
    requires Inv(s) && op.SaveMined? && Effective(s.db, op) && h in TransferHashes(op.mb.transfers)
    requires h in s.db.jobs && s.db.jobs[h].status == Processing
    ensures t == Next(s, Write(op)) && t.workers == s.workers && t.successes == s.successes
    ensures t.requeued == Requeued(s, op) && h in t.requeued && t.requeued[h] == s.clock
    ensures h in t.db.jobs && t.db.jobs[h] == NewJob(op.now)
  {
    t := Next(s, Write(op));
    SaveBlockRequeues(s.db, op.mb, op.now, t.db, h);
  }

  lemma SaveBlockRequeues(db: Db, mb: MinedBlock, now: Time, after: Db, h: Hash)
    requires SaveBlock(db, mb, now) == Ok(after) && !AlreadyStored(db, mb)
    requires h in TransferHashes(mb.transfers) && h in db.jobs && db.jobs[h].status == Processing
    ensures h in after.jobs && after.jobs[h] == NewJob(now)
  {
    var recorded := RecordBlock(db, mb, now).value;
    var promoted := if mb.transactions == [] then recorded else UpsertMined(recorded, mb, now).value;
    assert h in promoted.jobs && promoted.jobs[h] == db.jobs[h];
    assert mb.transfers != [];
  }
}
