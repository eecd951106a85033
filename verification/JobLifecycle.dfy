/** How one enrichment job is claimed, over all runs of all writers. The status invariant of
    jobs is part of LedgerInvariant; here are the timing guarantees. */
module JobLifecycle {
  import opened Prelude
  import opened Schema
  import opened Ledger
  import opened LedgerInvariant
  import opened PostgresStore

  /** The workers and the database share one clock, which never goes back. */
  ghost predicate Timed(ops: seq<Op>) {
    forall i, j | 0 <= i <= j < |ops| :: ops[i].now <= ops[j].now
  }

  /** Step k of the run takes the job. */
  ghost predicate Claims(states: seq<Db>, ops: seq<Op>, h: Hash, k: nat)
    requires IsRun(states, ops) && k < |ops|
  {
    ops[k].Claim? && ops[k].hash == h && Enabled(states[k], ops[k])
  }

  predicate Marks(op: Op, h: Hash) {
    (op.Complete? || op.Fail?) && op.hash == h
  }

  /** The step stores token transfers of the transaction, which re-queues its job. */
  predicate Requeues(op: Op, h: Hash) {
    op.SaveMined? && h in TransferHashes(op.mb.transfers)
  }

  // ----- What a step does to one job -----

  lemma SavePendingJob(db: Db, tx: Tx, now: Time, h: Hash)
    requires h in db.jobs
    ensures h in Step(db, SaveTx(tx, now)).jobs && Step(db, SaveTx(tx, now)).jobs[h] == db.jobs[h]
  {
  }

  lemma SaveBlockJob(db: Db, mb: MinedBlock, now: Time, after: Db, h: Hash)
    requires SaveBlock(db, mb, now) == Ok(after) && h in db.jobs
    ensures h in after.jobs
    ensures after.jobs[h] ==
      if !(h in TransferHashes(mb.transfers)) || db.jobs[h].status == Queued || AlreadyStored(db, mb)
      then db.jobs[h] else NewJob(now)
  {
    if !AlreadyStored(db, mb) { SaveBlockJobs(db, mb, now, after); }
  }

  /** The job after a step, if it is still there. A claim of a due job counts an attempt and locks it; a mark
      of a job in processing ends it, or releases it with an error, for good after six attempts and else to
      be claimed again once it has waited; nothing else changes it. */
  function JobAfter(job: JobRow, op: Op, h: Hash): JobRow {
    match op
    case Claim(g, now) =>
      if g == h && Due(job, now)
      then JobRow(Processing, job.attempts + 1, job.availableAt, Some(now), job.hasError, now) else job
    case Complete(g, now) =>
      if g == h && job.status == Processing
      then JobRow(Done, job.attempts, job.availableAt, None, false, now) else job
    case Fail(g, now) =>
      if g == h && job.status == Processing
      then JobRow(if job.attempts < 6 then Queued else Failed, job.attempts,
                  now + WAITS[Min(job.attempts, 6)], None, true, now) else job
    case _ => job
  }

  /** Only its own marks, claims and re-queues change a job; only a prune of a job that was done longer ago
      than the limit removes it. */
  lemma JobStep(db: Db, op: Op, h: Hash)
    requires h in db.jobs && !Requeues(op, h)
    ensures h in Step(db, op).jobs ==> Step(db, op).jobs[h] == JobAfter(db.jobs[h], op, h)
    ensures h !in Step(db, op).jobs ==>
      op.Prune? && db.jobs[h].status == Done && op.now - db.jobs[h].updatedAt > op.olderThan
  {
    match op
    case SaveTx(tx, now) => SavePendingJob(db, tx, now, h);
    case SaveMined(mb, now) =>
      if Attempt(db, op).Ok? { SaveBlockJob(db, mb, now, Step(db, op), h); }
    case Fail(_, now) => WaitExactly(db.jobs[h].attempts);
    case _ =>
  }

  // ----- The lease -----

  lemma {:induction false} LeaseHeld(states: seq<Db>, ops: seq<Op>, h: Hash, i: nat, k: nat)
    requires IsRun(states, ops) && Timed(ops) && i < k < |states| && Claims(states, ops, h, i)
    requires forall m | i < m < k :: !Marks(ops[m], h) && !Requeues(ops[m], h)
    ensures h in states[k].jobs && states[k].jobs[h].status == Processing
    ensures states[k].jobs[h].lockedAt.Some? && states[k].jobs[h].lockedAt.value >= ops[i].now
  {
    if k == i + 1 {
      assert !Requeues(ops[i], h);
      JobStep(states[i], ops[i], h);
    } else {
      LeaseHeld(states, ops, h, i, k - 1);
      JobStep(states[k - 1], ops[k - 1], h);
    }
  }

  /** Two claims of a job with no mark and no re-queue between them are a full lease apart. */
  lemma ClaimsLeaseApart(states: seq<Db>, ops: seq<Op>, h: Hash, i: nat, j: nat)
    requires IsRun(states, ops) && Timed(ops) && i < j < |ops|
    requires Claims(states, ops, h, i) && Claims(states, ops, h, j)
    requires forall m | i < m < j :: !Marks(ops[m], h) && !Requeues(ops[m], h)
    ensures ops[j].now - ops[i].now >= 120_000_000
  {
    LeaseHeld(states, ops, h, i, j);
  }

  /** The job as its claim left it. */
  lemma {:induction false} ClaimStays(states: seq<Db>, ops: seq<Op>, h: Hash, i: nat, k: nat)
    requires IsRun(states, ops) && i < k < |states| && Claims(states, ops, h, i)
    requires forall m | i < m < k :: !Marks(ops[m], h) && !Requeues(ops[m], h) && !Claims(states, ops, h, m)
    ensures h in states[k].jobs && states[k].jobs[h].status == Processing
    ensures states[k].jobs[h].lockedAt == Some(ops[i].now) && states[k].jobs[h].availableAt <= ops[i].now
  {
    if k == i + 1 {
      JobStep(states[i], ops[i], h);
    } else {
      ClaimStays(states, ops, h, i, k - 1);
      JobStep(states[k - 1], ops[k - 1], h);
    }
  }

  /** The lease exactly: until it is marked, re-queued or claimed again, a job claimed at some time can be
      claimed at another if and only if that is at least two minutes later. */
  lemma LeaseExactly(states: seq<Db>, ops: seq<Op>, h: Hash, i: nat, k: nat, t: Time)
    requires IsRun(states, ops) && i < k < |states| && Claims(states, ops, h, i)
    requires forall m | i < m < k :: !Marks(ops[m], h) && !Requeues(ops[m], h) && !Claims(states, ops, h, m)
    ensures Enabled(states[k], Claim(h, t)) <==> t - ops[i].now >= 120_000_000
  {
    ClaimStays(states, ops, h, i, k);
  }

  /** Which jobs can be claimed: the due ones. */
  lemma ClaimedExactly(db: Db, h: Hash, now: Time)
    ensures Enabled(db, Claim(h, now)) <==> h in db.jobs && Due(db.jobs[h], now)
  {
  }

  /** Which jobs one prune may remove: at most 10000 that were done longer ago than the limit. */
  lemma PrunedExactly(db: Db, hashes: set<Hash>, olderThan: Time, now: Time)
    ensures Enabled(db, Prune(hashes, olderThan, now)) <==>
      && |hashes| <= 10_000
      && forall h | h in hashes ::
           h in db.jobs && db.jobs[h].status == Done && now - db.jobs[h].updatedAt > olderThan
  {
  }

  // ----- Attempts and back-off -----

  /** The times of the claims among the first k steps. */
  ghost function ClaimTimes(states: seq<Db>, ops: seq<Op>, h: Hash, k: nat): seq<Time>
    requires IsRun(states, ops) && k <= |ops|
  {
    if k == 0 then []
    else if Claims(states, ops, h, k - 1) then ClaimTimes(states, ops, h, k - 1) + [ops[k - 1].now]
    else ClaimTimes(states, ops, h, k - 1)
  }

  /** A run in which the job keeps its row, is not re-queued, and is never taken from a worker
      whose lease ran out. */
  ghost predicate Undisturbed(states: seq<Db>, ops: seq<Op>, h: Hash) {
    && IsRun(states, ops)
    && (forall k | 0 <= k < |states| :: h in states[k].jobs)
    && (forall k | 0 <= k < |ops| :: !Requeues(ops[k], h))
    && (forall k | 0 <= k < |ops| && Claims(states, ops, h, k) :: states[k].jobs[h].status == Queued)
  }

  /** Consecutive claims are at least the back-off of the earlier one apart. */
  ghost predicate BackedOff(times: seq<Time>) {
    forall c | 0 < c < |times| :: times[c] >= times[c - 1] + Backoff(c)
  }

  /** The job counts its claims; once back in the queue it waits out the back-off. */
  ghost predicate Counted(job: JobRow, times: seq<Time>) {
    && job.attempts == |times|
    && (job.status == Queued ==> |times| < MAX_ATTEMPTS)
    && (job.status == Queued && times != [] ==> job.availableAt >= times[|times| - 1] + Backoff(|times|))
    && |times| <= MAX_ATTEMPTS
    && BackedOff(times)
  }

  lemma CountedStep(db: Db, op: Op, h: Hash, times: seq<Time>)
    requires h in db.jobs && h in Step(db, op).jobs && !Requeues(op, h)
    requires Counted(db.jobs[h], times) && (times != [] ==> times[|times| - 1] <= op.now)
    requires op.Claim? && op.hash == h && Enabled(db, op) ==> db.jobs[h].status == Queued
    ensures Counted(Step(db, op).jobs[h],
      if op.Claim? && op.hash == h && Enabled(db, op) then times + [op.now] else times)
  {
    JobStep(db, op, h);
    if op.Fail? { WaitExactly(db.jobs[h].attempts); }
  }

  lemma {:induction false} RunCounted(states: seq<Db>, ops: seq<Op>, h: Hash, k: nat)
    requires Undisturbed(states, ops, h) && Timed(ops) && k <= |ops|
    requires states[0].jobs[h].status == Queued && states[0].jobs[h].attempts == 0
    ensures Counted(states[k].jobs[h], ClaimTimes(states, ops, h, k))
    ensures ClaimTimes(states, ops, h, k) != [] ==>
      exists m | 0 <= m < k :: ops[m].now == ClaimTimes(states, ops, h, k)[|ClaimTimes(states, ops, h, k)| - 1]
  {
    if k > 0 {
      RunCounted(states, ops, h, k - 1);
      assert h in states[k].jobs && states[k] == Step(states[k - 1], ops[k - 1]);
      CountedStep(states[k - 1], ops[k - 1], h, ClaimTimes(states, ops, h, k - 1));
    }
  }

  /** Without lease expiry or re-queue a fresh job is claimed at most six times, each claim
      waits out the back-off of the one before, and the sixth comes at least
      10 + 20 + 40 + 80 + 160 = 310 seconds after the first. */
  lemma AtMostSixClaims(states: seq<Db>, ops: seq<Op>, h: Hash)
    requires Undisturbed(states, ops, h) && Timed(ops)
    requires states[0].jobs[h].status == Queued && states[0].jobs[h].attempts == 0
    ensures var times := ClaimTimes(states, ops, h, |ops|);
      && |times| <= 6
      && (|times| > 1 ==> times[1] - times[0] >= 10_000_000)
      && (|times| > 2 ==> times[2] - times[1] >= 20_000_000)
      && (|times| > 3 ==> times[3] - times[2] >= 40_000_000)
      && (|times| > 4 ==> times[4] - times[3] >= 80_000_000)
      && (|times| > 5 ==> times[5] - times[4] >= 160_000_000 && times[5] - times[0] >= 310_000_000)
  {
    RunCounted(states, ops, h, |ops|);
    var times := ClaimTimes(states, ops, h, |ops|);
    BackoffValues();
    assert |times| > 1 ==> times[1] >= times[0] + Backoff(1);
    assert |times| > 2 ==> times[2] >= times[1] + Backoff(2);
    assert |times| > 3 ==> times[3] >= times[2] + Backoff(3);
    assert |times| > 4 ==> times[4] >= times[3] + Backoff(4);
    assert |times| > 5 ==> times[5] >= times[4] + Backoff(5);
  }

  lemma BackoffValues()
    ensures Backoff(1) == 10 * SECOND && Backoff(2) == 20 * SECOND && Backoff(3) == 40 * SECOND
    ensures Backoff(4) == 80 * SECOND && Backoff(5) == 160 * SECOND
  {
    assert Pow2(1) == 2 && Pow2(2) == 4 && Pow2(3) == 8;
    assert Pow2(4) == 16 && Pow2(5) == 32;
  }
}
