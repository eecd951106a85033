/** A whole run of the outbox, from empty tables, in which one non-exclusive claim loses a re-queue. */
module LostRequeue {
  import opened Prelude
  import opened Schema
  import opened Ledger
  import opened LedgerInvariant
  import opened Commit
  import opened MovedDown
  import opened Outbox
  import Reorg

  lemma TargetOfFullBlock(n: nat, hash: Hash, t: Hash, a: Address)
    requires a != ""
    ensures var mb := FullBlock(n, hash, t, a);
      t in JobHashes(mb.transactions) && t in TransferHashes(mb.transfers)
  {
    var mb := FullBlock(n, hash, t, a);
    assert mb.transactions[0] in mb.transactions && mb.transfers[0] in mb.transfers;
  }

  /** A new block with a transfer of t leaves a fresh job for t in the queue. */
  lemma FullBlockQueues(db: Db, n: nat, hash: Hash, t: Hash, a: Address, after: Db)
    requires SaveBlock(db, FullBlock(n, hash, t, a), 0) == Ok(after) && !AlreadyStored(db, FullBlock(n, hash, t, a))
    requires a != "" && t !in db.jobs
    ensures t in after.jobs && after.jobs[t] == NewJob(0)
  {
    TargetOfFullBlock(n, hash, t, a);
    SaveBlockJobs(db, FullBlock(n, hash, t, a), 0, after);
  }

  const IDLE: System := System(EMPTY, [Idle, Idle], 0, map[], {}, {})

  /** One exclusive action. */
  ghost predicate Acts(s: System, a: Action, t: System) {
    Possible(s, a) && Exclusive(s, a) && t == Next(s, a)
  }

  lemma FirstWrite(block: Op) returns (s: System)
    requires block.SaveMined?
    ensures Acts(IDLE, Write(block), s) && s.db == Step(EMPTY, block) && s.workers == [Idle, Idle]
  {
    s := Next(IDLE, Write(block));
  }

  ghost predicate Working(s: System, h: Hash, db: Db) {
    && s.db.blocks == db.blocks
    && h in s.db.jobs && s.db.jobs[h].status == Processing
    && |s.workers| == 2 && s.workers[1].Idle?
  }

  lemma FirstClaim(s: System, h: Hash) returns (t: System)
    requires s.workers == [Idle, Idle] && h in s.db.jobs && s.db.jobs[h] == NewJob(0)
    ensures Acts(s, ClaimBy(0, h, 0), t) && Working(t, h, s.db) && t.workers[0] == Claimed(h, s.clock)
  {
    assert Enabled(s.db, Claim(h, 0)) && !Busy(s, h);
    t := Next(s, ClaimBy(0, h, 0));
  }

  lemma FirstRead(s: System, h: Hash, db: Db) returns (t: System)
    requires Working(s, h, db) && s.workers[0].Claimed? && s.workers[0].hash == h
    ensures Acts(s, Read(0), t) && Working(t, h, db) && t.workers[0].HasRead? && t.workers[0].hash == h
  {
    t := Next(s, Read(0));
  }

  lemma ThreeActs(states: seq<System>, actions: seq<Action>)
    requires |states| == 4 && |actions| == 3
    requires Acts(states[0], actions[0], states[1]) && Acts(states[1], actions[1], states[2])
    requires Acts(states[2], actions[2], states[3])
    ensures IsHistory(states, actions) && forall k | 0 <= k < 3 :: Exclusive(states[k], actions[k])
  {
    assert forall k | 0 <= k < 3 :: Acts(states[k], actions[k], states[k + 1]);
  }

  /** Worker 0 claims the job of t and reads its transfers. */
  ghost function Setup(t: Hash, block: Op): seq<Action> {
    [Write(block), ClaimBy(0, t, 0), Read(0)]
  }

  lemma StartsExclusive(db: Db, t: Hash, block: Op) returns (states: seq<System>)
    requires block.SaveMined? && db == Step(EMPTY, block) && t in db.jobs && db.jobs[t] == NewJob(0)
    ensures |states| == 4 && IsHistory(states, Setup(t, block)) && states[0] == IDLE
    ensures forall k | 0 <= k < 3 :: Exclusive(states[k], Setup(t, block)[k])
    ensures Working(states[3], t, db) && states[3].workers[0].HasRead? && states[3].workers[0].hash == t
  {
    var s1 := FirstWrite(block);
    var s2 := FirstClaim(s1, t);
    var s3 := FirstRead(s2, t, db);
    states := [IDLE, s1, s2, s3];
    ThreeActs(states, Setup(t, block));
  }

  lemma IdleIsInitial()
    ensures Initial(IDLE)
  {
  }

  lemma FirstSaved(a: Address, t: Hash, h: Hash) returns (db: Db)
    requires WellFormed(a)
    ensures SaveBlock(EMPTY, FullBlock(1, h, t, a), 0) == Ok(db)
    ensures forall m | m in db.blocks :: db.blocks[m].block.hash == h
  {
    EmptyConsistent();
    db := SavedFull(EMPTY, 1, h, t, a);
  }

  lemma FirstBlock(a: Address, t: Hash, h: Hash) returns (db: Db)
    requires WellFormed(a)
    ensures db == Step(EMPTY, SaveMined(FullBlock(1, h, t, a), 0))
    ensures t in db.jobs && db.jobs[t] == NewJob(0)
    ensures forall m | m in db.blocks :: db.blocks[m].block.hash == h
  {
    db := FirstSaved(a, t, h);
    FullBlockQueues(EMPTY, 1, h, t, a, db);
    SaveIsStep(EMPTY, FullBlock(1, h, t, a), db);
  }

  lemma SecondBlockTakesEffect(db: Db, s: Db, hash: Hash, t: Hash, a: Address)
    requires Consistent(s) && s.blocks == db.blocks && WellFormed(a)
    requires forall m | m in db.blocks :: db.blocks[m].block.hash != hash
    ensures Reorg.Effective(s, SaveMined(FullBlock(1, hash, t, a), 0))
  {
    FullBlockAcceptable(s, 1, hash, t, a);
    SaveBlockCommits(s, FullBlock(1, hash, t, a), 0);
  }

  /** From empty tables: a block with a transfer of t is stored, worker 0 claims t and reads, a
      reorganisation re-queues t, worker 1 claims it at once, and worker 0 marks it done. The job is
      done although nothing was enriched after the re-queue. All actions but the second claim are
      exclusive. */
  lemma LostRequeueReached(a: Address, t: Hash, h1: Hash, h2: Hash)
    returns (states: seq<System>, overtaken: System, lost: System)
    requires WellFormed(a) && h1 != h2
    ensures |states| == 4 && IsHistory(states, Setup(t, SaveMined(FullBlock(1, h1, t, a), 0))) && Initial(states[0])
    ensures Possible(states[3], Write(SaveMined(FullBlock(1, h2, t, a), 0)))
    ensures overtaken == Next(states[3], Write(SaveMined(FullBlock(1, h2, t, a), 0)))
    ensures OvertakenRun(overtaken, 0, 1, t, 0, lost)
    ensures Finished(lost, t) && !Delivered(lost, t)
  {
    var db := FirstBlock(a, t, h1);
    var block, next := SaveMined(FullBlock(1, h1, t, a), 0), SaveMined(FullBlock(1, h2, t, a), 0);
    states := StartsExclusive(db, t, block);
    IdleIsInitial();
    OutboxMissesNothing(states, Setup(t, block), 3);
    SecondBlockTakesEffect(db, states[3].db, h2, t, a);
    TargetOfFullBlock(1, h2, t, a);
    overtaken, lost := SharedClaimLosesRequeue(states[3], 0, 1, t, next);
  }
}
