/** The mined/block_number table is maintained in place, block by block; here it is
    compared with the chain of ingested blocks it should be a rebuild of. */
module Reorg {
  import opened Prelude
  import opened Schema
  import opened Ledger
  import opened LedgerInvariant

  /** The block that was last ingested at each stored height. */
  type Chain = map<nat, MinedBlock>

  ghost predicate MinedAt(db: Db, h: Hash, n: nat) {
    h in db.txs && db.txs[h].status == Mined && db.txs[h].blockNumber == Some(n)
  }

  ghost predicate Contains(chain: Chain, h: Hash, n: nat) {
    n in chain && h in HashSet(chain[n].transactions)
  }

  ghost predicate SameBlocks(db: Db, chain: Chain) {
    && db.blocks.Keys == chain.Keys
    && forall n | n in chain :: db.blocks[n].block.hash == chain[n].block.hash
  }

  /** The block and transaction tables say exactly what the chain says. */
  ghost predicate Tracks(db: Db, chain: Chain) {
    && SameBlocks(db, chain)
    && forall h, n :: MinedAt(db, h, n) <==> Contains(chain, h, n)
  }

  /** No transaction is in two blocks. */
  ghost predicate UniqueTxs(chain: Chain) {
    forall h, m, n :: Contains(chain, h, m) && Contains(chain, h, n) ==> m == n
  }

  /** A block changes the tables only if it commits and was not stored before under its hash. */
  predicate Effective(db: Db, op: Op) {
    op.SaveMined? && Attempt(db, op).Ok? && !AlreadyStored(db, op.mb)
  }

  type Event = Option<MinedBlock>

  /** The block written by each step of a run, if the step wrote one. */
  ghost function Events(states: seq<Db>, ops: seq<Op>): (events: seq<Event>)
    requires IsRun(states, ops)
    ensures |events| == |ops|
    ensures forall k | 0 <= k < |ops| ::
      events[k] == if Effective(states[k], ops[k]) then Some(ops[k].mb) else None
  {
    seq(|ops|, k requires 0 <= k < |ops| => if Effective(states[k], ops[k]) then Some(ops[k].mb) else None)
  }

  /** The chain after the first k events. */
  ghost function ChainAt(chain: Chain, events: seq<Event>, k: nat): Chain
    requires k <= |events|
  {
    if k == 0 then chain
    else
      var before := ChainAt(chain, events, k - 1);
      if events[k - 1].None? then before
      else before[events[k - 1].value.block.number := events[k - 1].value]
  }

  ghost predicate Writes(e: Event, n: nat) {
    e.Some? && e.value.block.number == n
  }

  ghost predicate Lists(e: Event, h: Hash) {
    e.Some? && h in HashSet(e.value.transactions)
  }

  /** Height n is not written by the events from j up to k. */
  ghost predicate Untouched(events: seq<Event>, j: nat, k: nat, n: nat)
    requires k <= |events|
  {
    forall i | j <= i < k :: !Writes(events[i], n)
  }

  /** An event listed h after height n was last written. */
  ghost predicate TakenLater(events: seq<Event>, k: nat, h: Hash, n: nat)
    requires k <= |events|
  {
    exists j | 0 <= j < k :: Lists(events[j], h) && Untouched(events, j, k, n)
  }

  /** Each height is written at most once. */
  ghost predicate DistinctEvents(events: seq<Event>) {
    forall i, j | 0 <= i < j < |events| && events[i].Some? && events[j].Some? ::
      events[i].value.block.number != events[j].value.block.number
  }

  // ----- What one step does to the tables -----

  ghost predicate BlocksAdd(db: Db, after: Db, b: Block) {
    && after.blocks.Keys == db.blocks.Keys + {b.number}
    && forall n | n in after.blocks ::
         after.blocks[n].block.hash == if n == b.number then b.hash else db.blocks[n].block.hash
  }

  ghost predicate MinedMove(db: Db, after: Db, hashes: set<Hash>, n0: nat) {
    forall h, n :: MinedAt(after, h, n) <==>
      if h in hashes then n == n0 else n != n0 && MinedAt(db, h, n)
  }

  ghost predicate BlockEffect(db: Db, after: Db, mb: MinedBlock) {
    && BlocksAdd(db, after, mb.block)
    && MinedMove(db, after, HashSet(mb.transactions), mb.block.number)
    && after.transfers ==
         InsertRows(RemoveTransfersOf(db.transfers, mb.block.number), mb.block.number, mb.transfers)
  }

  ghost predicate Quiet(db: Db, after: Db) {
    && after.blocks == db.blocks
    && after.transfers == db.transfers
    && forall h, n :: MinedAt(after, h, n) <==> MinedAt(db, h, n)
  }

  /** The history of the tables, seen only through the blocks that were written. */
  ghost predicate IsTableRun(states: seq<Db>, events: seq<Event>) {
    && |states| == |events| + 1
    && forall k | 0 <= k < |events| ::
         if events[k].None? then Quiet(states[k], states[k + 1])
         else BlockEffect(states[k], states[k + 1], events[k].value)
  }

  lemma UndoEffect(db: Db, n0: nat)
    requires Consistent(db)
    ensures UndoBlock(db, n0).transfers == RemoveTransfersOf(db.transfers, n0)
    ensures forall h, n :: MinedAt(UndoBlock(db, n0), h, n) <==> n != n0 && MinedAt(db, h, n)
  {
    UndoKeeps(db, n0);
    if n0 !in db.blocks {
      assert RemoveTransfersOf(db.transfers, n0) == db.transfers;
    }
  }

  lemma RecordEffect(db: Db, mb: MinedBlock, now: Time, after: Db)
    requires Consistent(db) && RecordBlock(db, mb, now) == Ok(after)
    ensures BlocksAdd(db, after, mb.block)
    ensures after.transfers == RemoveTransfersOf(db.transfers, mb.block.number)
    ensures forall h, n :: MinedAt(after, h, n) <==> n != mb.block.number && MinedAt(db, h, n)
  {
    var undone := UndoBlock(db, mb.block.number);
    UndoEffect(db, mb.block.number);
    assert after.txs == undone.txs;
    assert forall h, n :: MinedAt(after, h, n) <==> MinedAt(undone, h, n);
  }

  lemma PromoteEffect(db: Db, mb: MinedBlock, now: Time, after: Db)
    requires UpsertMined(db, mb, now) == Ok(after)
    ensures after.blocks == db.blocks && after.transfers == db.transfers
    ensures forall h, n :: MinedAt(after, h, n) <==>
      if h in HashSet(mb.transactions) then n == mb.block.number else MinedAt(db, h, n)
  {
    var promoted := PromoteTxs(db.txs, mb);
    forall h, n ensures MinedAt(after, h, n) <==>
      if h in HashSet(mb.transactions) then n == mb.block.number else MinedAt(db, h, n)
    {
      assert h in promoted <==> h in HashSet(mb.transactions) || h in db.txs;
      if h in HashSet(mb.transactions) {
        assert promoted[h] == MinedRow(db.txs, mb, FindTx(mb.transactions, h));
        assert after.txs[h] == promoted[h];
      }
    }
  }

  lemma SaveBlockEffect(db: Db, mb: MinedBlock, now: Time, after: Db)
    requires Consistent(db) && SaveBlock(db, mb, now) == Ok(after) && !AlreadyStored(db, mb)
    ensures BlockEffect(db, after, mb)
  {
    var recorded := RecordBlock(db, mb, now).value;
    RecordEffect(db, mb, now, recorded);
    if mb.transactions == [] {
      LastEffect(db, recorded, recorded, mb, now, after);
    } else {
      var promoted := UpsertMined(recorded, mb, now).value;
      PromoteEffect(recorded, mb, now, promoted);
      LastEffect(db, recorded, promoted, mb, now, after);
    }
  }

  lemma LastEffect(db: Db, recorded: Db, promoted: Db, mb: MinedBlock, now: Time, after: Db)
    requires BlocksAdd(db, recorded, mb.block)
    requires recorded.transfers == RemoveTransfersOf(db.transfers, mb.block.number)
    requires forall h, n :: MinedAt(recorded, h, n) <==> n != mb.block.number && MinedAt(db, h, n)
    requires promoted.blocks == recorded.blocks && promoted.transfers == recorded.transfers
    requires forall h, n :: MinedAt(promoted, h, n) <==>
      if h in HashSet(mb.transactions) then n == mb.block.number else MinedAt(recorded, h, n)
    requires if mb.transfers == [] then after == promoted
             else InsertTransfers(promoted, mb.block.number, mb.transfers, now) == Ok(after)
    ensures BlockEffect(db, after, mb)
  {
    assert after.txs == promoted.txs && after.blocks == promoted.blocks;
    assert forall h, n :: MinedAt(after, h, n) <==> MinedAt(promoted, h, n);
  }

  lemma PendingIsQuiet(db: Db, tx: Tx, now: Time)
    ensures Quiet(db, Step(db, SaveTx(tx, now)))
  {
  }

  lemma DropIsQuiet(db: Db, olderThan: Time, now: Time)
    requires Consistent(db)
    ensures Quiet(db, Step(db, DropOld(olderThan, now)))
  {
  }

  lemma SameTablesAreQuiet(db: Db, after: Db)
    requires after.blocks == db.blocks && after.transfers == db.transfers && after.txs == db.txs
    ensures Quiet(db, after)
  {
  }

  lemma SkippedIsQuiet(db: Db, mb: MinedBlock, now: Time)
    requires !Effective(db, SaveMined(mb, now))
    ensures Quiet(db, Step(db, SaveMined(mb, now)))
  {
    assert Step(db, SaveMined(mb, now)) == db;
  }

  lemma QueueIsQuiet(db: Db, op: Op)
    requires op.TouchAccount? || op.Claim? || op.Complete? || op.Fail? || op.Prune?
    ensures Quiet(db, Step(db, op))
  {
    SameTablesAreQuiet(db, Step(db, op));
  }

  lemma QuietStep(db: Db, op: Op)
    requires Consistent(db) && !Effective(db, op)
    ensures Quiet(db, Step(db, op))
  {
    match op
    case SaveTx(tx, now) => PendingIsQuiet(db, tx, now);
    case DropOld(olderThan, now) => DropIsQuiet(db, olderThan, now);
    case SaveMined(mb, now) => SkippedIsQuiet(db, mb, now);
    case TouchAccount(_, _, _) => QueueIsQuiet(db, op);
    case Claim(_, _) => QueueIsQuiet(db, op);
    case Complete(_, _) => QueueIsQuiet(db, op);
    case Fail(_, _) => QueueIsQuiet(db, op);
    case Prune(_, _, _) => QueueIsQuiet(db, op);
  }

  lemma StepEffect(db: Db, op: Op)
    requires Consistent(db)
    ensures if Effective(db, op) then BlockEffect(db, Step(db, op), op.mb) else Quiet(db, Step(db, op))
  {
    if Effective(db, op) {
      SaveBlockEffect(db, op.mb, op.now, Step(db, op));
    } else {
      QuietStep(db, op);
    }
  }

  lemma RunIsTableRun(states: seq<Db>, ops: seq<Op>)
    requires IsRun(states, ops) && Consistent(states[0])
    ensures IsTableRun(states, Events(states, ops))
  {
    forall k | 0 <= k < |ops|
      ensures if Effective(states[k], ops[k]) then BlockEffect(states[k], states[k + 1], ops[k].mb)
              else Quiet(states[k], states[k + 1])
    {
      RunKeeps(states, ops, k);
      StepEffect(states[k], ops[k]);
    }
  }

  // ----- The invariant of every run -----

  lemma {:induction false} UntouchedSame(chain: Chain, events: seq<Event>, j: nat, k: nat, n: nat)
    requires j <= k <= |events| && Untouched(events, j, k, n)
    ensures n in ChainAt(chain, events, k) <==> n in ChainAt(chain, events, j)
    ensures n in ChainAt(chain, events, k) ==> ChainAt(chain, events, k)[n] == ChainAt(chain, events, j)[n]
    decreases k
  {
    if j < k {
      UntouchedSame(chain, events, j, k - 1, n);
      assert !Writes(events[k - 1], n);
    }
  }

  /** The last event at a height is the block the chain has there. */
  lemma EventStays(chain: Chain, events: seq<Event>, j: nat, k: nat, n: nat)
    requires j < k <= |events| && Writes(events[j], n) && Untouched(events, j + 1, k, n)
    ensures n in ChainAt(chain, events, k) && ChainAt(chain, events, k)[n] == events[j].value
  {
    UntouchedSame(chain, events, j + 1, k, n);
  }

  /** A row is mined at a height exactly when the chain lists it there and no later block took it. */
  ghost predicate MinedExactly(db: Db, chain: Chain, events: seq<Event>, k: nat)
    requires k <= |events|
  {
    && SameBlocks(db, chain)
    && forall h, n :: MinedAt(db, h, n) <==> Contains(chain, h, n) && !TakenLater(events, k, h, n)
  }

  lemma TakenStep(events: seq<Event>, k: nat, h: Hash, n: nat)
    requires k < |events|
    ensures TakenLater(events, k + 1, h, n) <==>
      !Writes(events[k], n) && (Lists(events[k], h) || TakenLater(events, k, h, n))
  {
    if !Writes(events[k], n) && Lists(events[k], h) {
      assert Untouched(events, k, k + 1, n);
    }
    if !Writes(events[k], n) && TakenLater(events, k, h, n) {
      var j :| 0 <= j < k && Lists(events[j], h) && Untouched(events, j, k, n);
      assert Untouched(events, j, k + 1, n);
    }
    if TakenLater(events, k + 1, h, n) {
      var j :| 0 <= j < k + 1 && Lists(events[j], h) && Untouched(events, j, k + 1, n);
      assert Untouched(events, j, k, n) && !Writes(events[k], n);
    }
  }

  lemma WrittenExactly(db: Db, after: Db, chain: Chain, events: seq<Event>, k: nat)
    requires k < |events| && events[k].Some? && BlockEffect(db, after, events[k].value)
    requires MinedExactly(db, chain, events, k)
    ensures MinedExactly(after, chain[events[k].value.block.number := events[k].value], events, k + 1)
  {
    var mb := events[k].value;
    var next := chain[mb.block.number := mb];
    forall h, n ensures MinedAt(after, h, n) <==> Contains(next, h, n) && !TakenLater(events, k + 1, h, n) {
      TakenStep(events, k, h, n);
      assert MinedAt(db, h, n) <==> Contains(chain, h, n) && !TakenLater(events, k, h, n);
    }
  }

  lemma QuietExactly(db: Db, after: Db, chain: Chain, events: seq<Event>, k: nat)
    requires k < |events| && events[k].None? && Quiet(db, after)
    requires MinedExactly(db, chain, events, k)
    ensures MinedExactly(after, chain, events, k + 1)
  {
    forall h, n ensures MinedAt(after, h, n) <==> Contains(chain, h, n) && !TakenLater(events, k + 1, h, n) {
      TakenStep(events, k, h, n);
    }
  }

  lemma ExactStep(db: Db, after: Db, chain: Chain, events: seq<Event>, k: nat)
    requires k < |events| && MinedExactly(db, chain, events, k)
    requires if events[k].None? then Quiet(db, after) else BlockEffect(db, after, events[k].value)
    ensures MinedExactly(after,
      if events[k].None? then chain else chain[events[k].value.block.number := events[k].value], events, k + 1)
  {
    if events[k].Some? {
      WrittenExactly(db, after, chain, events, k);
    } else {
      QuietExactly(db, after, chain, events, k);
    }
  }

  lemma {:induction false} RunExactly(states: seq<Db>, events: seq<Event>, chain: Chain, k: nat)
    requires IsTableRun(states, events) && k <= |events| && Tracks(states[0], chain)
    ensures MinedExactly(states[k], ChainAt(chain, events, k), events, k)
  {
    if k > 0 {
      RunExactly(states, events, chain, k - 1);
      ExactStep(states[k - 1], states[k], ChainAt(chain, events, k - 1), events, k - 1);
    }
  }

  /** No transaction of the resulting chain was listed by an event after its height was last written. */
  ghost predicate NoneTakenLater(chain: Chain, events: seq<Event>) {
    forall h, n | Contains(ChainAt(chain, events, |events|), h, n) :: !TakenLater(events, |events|, h, n)
  }

  /** Reorg handling refines a rebuild, exactly. After any run of the writers, with any number of
      reorganisations, re-deliveries and rolled-back blocks, the block and transaction tables are those
      of the resulting chain, wherever its transactions sat before, if and only if no transaction of a
      chain block was taken by another block after that height was last written. */
  lemma ReorgTracksChain(states: seq<Db>, ops: seq<Op>, chain: Chain)
    requires IsRun(states, ops) && Consistent(states[0]) && Tracks(states[0], chain)
    ensures Tracks(states[|ops|], ChainAt(chain, Events(states, ops), |ops|)) <==>
      NoneTakenLater(chain, Events(states, ops))
  {
    RunIsTableRun(states, ops);
    TableRunTracksExactly(states, Events(states, ops), chain);
  }

  lemma TableRunTracksExactly(states: seq<Db>, events: seq<Event>, chain: Chain)
    requires IsTableRun(states, events) && Tracks(states[0], chain)
    ensures Tracks(states[|events|], ChainAt(chain, events, |events|)) <==> NoneTakenLater(chain, events)
  {
    var db, final := states[|events|], ChainAt(chain, events, |events|);
    RunExactly(states, events, chain, |events|);
    if Tracks(db, final) {
      forall h, n | Contains(final, h, n) ensures !TakenLater(events, |events|, h, n) {
        assert MinedAt(db, h, n);
      }
    }
  }

  /** Where each height is written at most once, that is: no transaction is in two blocks. */
  lemma OnceTracksUnique(states: seq<Db>, events: seq<Event>, chain: Chain)
    requires IsTableRun(states, events) && DistinctEvents(events) && Tracks(states[0], chain)
    ensures var final := ChainAt(chain, events, |events|);
      Tracks(states[|events|], final) <==> UniqueTxs(final)
  {
    var db, final := states[|events|], ChainAt(chain, events, |events|);
    TableRunTracksExactly(states, events, chain);
    if UniqueTxs(final) {
      forall h, n | Contains(final, h, n) ensures !TakenLater(events, |events|, h, n) {
        if TakenLater(events, |events|, h, n) { TakenTwice(chain, events, h, n); }
      }
    }
    if Tracks(db, final) {
      forall h, m, n | Contains(final, h, m) && Contains(final, h, n) ensures m == n {
        assert MinedAt(db, h, m) && MinedAt(db, h, n);
      }
    }
  }

  lemma TakenTwice(chain: Chain, events: seq<Event>, h: Hash, n: nat)
    requires DistinctEvents(events) && TakenLater(events, |events|, h, n)
    ensures exists m :: m != n && Contains(ChainAt(chain, events, |events|), h, m)
  {
    var j :| 0 <= j < |events| && Lists(events[j], h) && Untouched(events, j, |events|, n);
    var m := events[j].value.block.number;
    assert !Writes(events[j], n);
    EventStays(chain, events, j, |events|, m);
    assert Contains(ChainAt(chain, events, |events|), h, m);
  }

  /** A branch that flips back is not repaired: once a block took h from height n, re-delivering the
      block stored at n (which writes nothing) leaves h mined elsewhere or nowhere. */
  lemma FlipBackNotRepaired(states: seq<Db>, ops: seq<Op>, chain: Chain, j: nat, h: Hash, n: nat)
    requires IsRun(states, ops) && Consistent(states[0]) && Tracks(states[0], chain) && j < |ops|
    requires Lists(Events(states, ops)[j], h) && Untouched(Events(states, ops), j, |ops|, n)
    requires Contains(ChainAt(chain, Events(states, ops), |ops|), h, n)
    ensures !MinedAt(states[|ops|], h, n)
    ensures !Tracks(states[|ops|], ChainAt(chain, Events(states, ops), |ops|))
  {
    RunIsTableRun(states, ops);
    RunExactly(states, Events(states, ops), chain, |ops|);
    assert TakenLater(Events(states, ops), |ops|, h, n);
  }

  // ----- Replacing a branch -----

  predicate Ascending(branch: seq<MinedBlock>) {
    forall i, j | 0 <= i < j < |branch| :: branch[i].block.number < branch[j].block.number
  }

  function Heights(branch: seq<MinedBlock>): set<nat> {
    set b | b in branch :: b.block.number
  }

  /** The chain below the fork point, continued by the branch. */
  ghost predicate IsNewChain(before: Chain, branch: seq<MinedBlock>, chain: Chain) {
    && branch != []
    && (forall n :: n in chain <==> (n in before && n < branch[0].block.number) || n in Heights(branch))
    && (forall n | n in chain && n < branch[0].block.number :: n in before && chain[n] == before[n])
    && (forall b | b in branch :: b.block.number in chain && chain[b.block.number] == b)
  }

  /** The op commits the next block of the branch, d of which are saved already. */
  ghost predicate SavesNext(db: Db, op: Op, branch: seq<MinedBlock>, d: nat) {
    d < |branch| && op.SaveMined? && op.mb == branch[d] && Attempt(db, op).Ok?
  }

  /** done[k] blocks of the branch are saved after k steps. Every other step writes no block: another
      writer's, a rolled-back save, or a save of a block stored already. */
  ghost predicate Progress(states: seq<Db>, ops: seq<Op>, branch: seq<MinedBlock>, done: seq<nat>)
    requires |ops| < |states|
  {
    && |done| == |ops| + 1 && done[0] == 0 && done[|ops|] == |branch|
    && forall k | 0 <= k < |ops| ::
         || (done[k + 1] == done[k] && !Effective(states[k], ops[k]))
         || (done[k + 1] == done[k] + 1 && SavesNext(states[k], ops[k], branch, done[k]))
  }

  /** A run of all the writers that saves the branch, block after block, and no other block. */
  ghost predicate SavesBranch(states: seq<Db>, ops: seq<Op>, branch: seq<MinedBlock>) {
    IsRun(states, ops) && exists done :: Progress(states, ops, branch, done)
  }

  /** A block hash fixes the block's transactions. */
  ghost predicate HashFixesTxs(chain: Chain, branch: seq<MinedBlock>) {
    forall b | b in branch && b.block.number in chain
             && chain[b.block.number].block.hash == b.block.hash ::
      HashSet(chain[b.block.number].transactions) == HashSet(b.transactions)
  }

  /** The same block, as far as the tables can tell. */
  predicate SameBlock(a: MinedBlock, b: MinedBlock) {
    a.block.hash == b.block.hash && HashSet(a.transactions) == HashSet(b.transactions)
  }

  /** What is left of the old chain under the branch, and the branch itself. */
  ghost predicate Overlay(chain: Chain, branch: seq<MinedBlock>, at: Chain) {
    && at.Keys == chain.Keys + Heights(branch)
    && (forall n | n in chain && n !in Heights(branch) :: at[n] == chain[n])
    && (forall b | b in branch :: SameBlock(at[b.block.number], b))
  }

  lemma OverlayStep(chain: Chain, branch: seq<MinedBlock>, b: MinedBlock, at: Chain, next: Chain)
    requires Overlay(chain, branch, at) && b.block.number !in Heights(branch)
    requires next == at[b.block.number := b] || (next == at && b.block.number in at && SameBlock(at[b.block.number], b))
    ensures Overlay(chain, branch + [b], next)
  {
    assert Heights(branch + [b]) == Heights(branch) + {b.block.number};
  }

  /** Event i leaves the branch where it is, or writes its next block, unless that was stored already. */
  ghost predicate BranchEvent(states: seq<Db>, events: seq<Event>, branch: seq<MinedBlock>, done: seq<nat>, i: nat)
    requires i < |events| <= |states| && |events| < |done|
  {
    || (done[i + 1] == done[i] && events[i].None?)
    || (&& done[i + 1] == done[i] + 1 && done[i] < |branch|
        && if events[i].Some? then events[i].value == branch[done[i]] else AlreadyStored(states[i], branch[done[i]]))
  }

  ghost predicate BranchEvents(states: seq<Db>, events: seq<Event>, branch: seq<MinedBlock>, done: seq<nat>) {
    && IsTableRun(states, events)
    && |done| == |events| + 1 && done[0] == 0 && done[|events|] == |branch|
    && forall i | 0 <= i < |events| :: BranchEvent(states, events, branch, done, i)
  }

  lemma {:induction false} DoneRises(
    states: seq<Db>, events: seq<Event>, branch: seq<MinedBlock>, done: seq<nat>, i: nat, j: nat)
    requires BranchEvents(states, events, branch, done) && i <= j <= |events|
    ensures done[i] <= done[j]
    decreases j
  {
    if i < j {
      DoneRises(states, events, branch, done, i, j - 1);
      assert BranchEvent(states, events, branch, done, j - 1);
    }
  }

  lemma BranchWritesOnce(states: seq<Db>, events: seq<Event>, branch: seq<MinedBlock>, done: seq<nat>)
    requires BranchEvents(states, events, branch, done) && Ascending(branch)
    ensures DistinctEvents(events)
  {
    forall i, j | 0 <= i < j < |events| && events[i].Some? && events[j].Some?
      ensures events[i].value.block.number != events[j].value.block.number
    {
      assert BranchEvent(states, events, branch, done, i) && BranchEvent(states, events, branch, done, j);
      DoneRises(states, events, branch, done, i + 1, j);
    }
  }

  lemma EventKeepsSameBlocks(states: seq<Db>, events: seq<Event>, chain: Chain, k: nat)
    requires IsTableRun(states, events) && k < |events|
    requires SameBlocks(states[k], ChainAt(chain, events, k))
    ensures SameBlocks(states[k + 1], ChainAt(chain, events, k + 1))
  {
    if events[k].Some? {
      assert BlocksAdd(states[k], states[k + 1], events[k].value.block);
    }
  }

  lemma NotYetWritten(branch: seq<MinedBlock>, k: nat)
    requires Ascending(branch) && k < |branch|
    ensures branch[k].block.number !in Heights(branch[..k])
    ensures branch[..k + 1] == branch[..k] + [branch[k]]
  {
  }

  lemma StoredInChain(db: Db, chain: Chain, branch: seq<MinedBlock>, k: nat, at: Chain)
    requires SameBlocks(db, at) && k < |branch| && AlreadyStored(db, branch[k])
    requires Ascending(branch) && HashFixesTxs(chain, branch) && Overlay(chain, branch[..k], at)
    ensures branch[k].block.number in at && SameBlock(at[branch[k].block.number], branch[k])
  {
    var n := branch[k].block.number;
    NotYetWritten(branch, k);
    assert at[n] == chain[n];
  }

  lemma BranchOverlayStep(
    states: seq<Db>, events: seq<Event>, chain: Chain, branch: seq<MinedBlock>, done: seq<nat>, k: nat)
    requires BranchEvents(states, events, branch, done) && 0 < k <= |events| && done[k] == done[k - 1] + 1 <= |branch|
    requires Ascending(branch) && HashFixesTxs(chain, branch)
    requires SameBlocks(states[k - 1], ChainAt(chain, events, k - 1))
    requires Overlay(chain, branch[..done[k - 1]], ChainAt(chain, events, k - 1))
    ensures Overlay(chain, branch[..done[k]], ChainAt(chain, events, k))
  {
    var d, at := done[k - 1], ChainAt(chain, events, k - 1);
    assert BranchEvent(states, events, branch, done, k - 1);
    if events[k - 1].None? { StoredInChain(states[k - 1], chain, branch, d, at); }
    NotYetWritten(branch, d);
    OverlayStep(chain, branch[..d], branch[d], at, ChainAt(chain, events, k));
  }

  lemma {:induction false} BranchOverlay(
    states: seq<Db>, events: seq<Event>, chain: Chain, branch: seq<MinedBlock>, done: seq<nat>, k: nat)
    requires BranchEvents(states, events, branch, done) && k <= |events|
    requires Ascending(branch) && HashFixesTxs(chain, branch) && SameBlocks(states[0], chain)
    ensures SameBlocks(states[k], ChainAt(chain, events, k))
    ensures done[k] <= |branch| && Overlay(chain, branch[..done[k]], ChainAt(chain, events, k))
  {
    DoneRises(states, events, branch, done, k, |events|);
    if k > 0 {
      BranchOverlay(states, events, chain, branch, done, k - 1);
      EventKeepsSameBlocks(states, events, chain, k - 1);
      assert BranchEvent(states, events, branch, done, k - 1);
      if done[k] > done[k - 1] { BranchOverlayStep(states, events, chain, branch, done, k); }
    }
  }

  lemma SavedOrStored(db: Db, op: Op, branch: seq<MinedBlock>, d: nat)
    requires SavesNext(db, op, branch, d)
    ensures Effective(db, op) || AlreadyStored(db, branch[d])
  {
  }

  lemma BranchRunEvent(
    states: seq<Db>, ops: seq<Op>, events: seq<Event>, branch: seq<MinedBlock>, done: seq<nat>, i: nat)
    requires |states| == |ops| + 1 == |done| && |events| == |ops| && i < |ops|
    requires events[i] == if Effective(states[i], ops[i]) then Some(ops[i].mb) else None
    requires Progress(states, ops, branch, done)
    ensures BranchEvent(states, events, branch, done, i)
  {
    if done[i + 1] == done[i] + 1 { SavedOrStored(states[i], ops[i], branch, done[i]); }
  }

  lemma BranchRunEvents(states: seq<Db>, ops: seq<Op>, branch: seq<MinedBlock>, done: seq<nat>)
    requires IsRun(states, ops) && Progress(states, ops, branch, done) && Consistent(states[0])
    ensures BranchEvents(states, Events(states, ops), branch, done)
  {
    RunIsTableRun(states, ops);
    forall i | 0 <= i < |ops| ensures BranchEvent(states, Events(states, ops), branch, done, i) {
      BranchRunEvent(states, ops, Events(states, ops), branch, done, i);
    }
  }

  lemma OverlayIsNewChain(chain: Chain, branch: seq<MinedBlock>, at: Chain, newChain: Chain)
    requires Overlay(chain, branch, at) && IsNewChain(chain, branch, newChain)
    requires forall n | n in chain && n >= branch[0].block.number :: n in Heights(branch)
    requires forall b | b in branch :: branch[0].block.number <= b.block.number
    ensures at.Keys == newChain.Keys
    ensures forall n | n in newChain :: SameBlock(at[n], newChain[n])
  {
    forall n | n in newChain ensures n in at && SameBlock(at[n], newChain[n]) {
      if n in Heights(branch) {
        var b :| b in branch && b.block.number == n;
        assert newChain[n] == b;
      }
    }
  }

  lemma TracksSame(db: Db, a: Chain, b: Chain)
    requires a.Keys == b.Keys && forall n | n in b :: SameBlock(a[n], b[n])
    ensures UniqueTxs(a) <==> UniqueTxs(b)
    ensures Tracks(db, a) <==> Tracks(db, b)
  {
    assert forall h, n :: Contains(a, h, n) <==> Contains(b, h, n);
  }

  lemma TracksCovered(
    states: seq<Db>, events: seq<Event>, chain: Chain, branch: seq<MinedBlock>, done: seq<nat>, newChain: Chain)
    requires BranchEvents(states, events, branch, done) && Ascending(branch) && HashFixesTxs(chain, branch)
    requires SameBlocks(states[0], chain) && IsNewChain(chain, branch, newChain)
    requires SameBlocks(states[|events|], newChain)
    ensures forall n | n in chain && n >= branch[0].block.number :: n in Heights(branch)
  {
    BranchOverlay(states, events, chain, branch, done, |events|);
    assert branch[..|branch|] == branch;
    TrackedIsCovered(states[|events|], chain, branch, ChainAt(chain, events, |events|), newChain);
  }

  lemma CoveredTracks(
    states: seq<Db>, events: seq<Event>, chain: Chain, branch: seq<MinedBlock>, done: seq<nat>, newChain: Chain)
    requires BranchEvents(states, events, branch, done) && Ascending(branch) && HashFixesTxs(chain, branch)
    requires Tracks(states[0], chain) && IsNewChain(chain, branch, newChain)
    requires forall n | n in chain && n >= branch[0].block.number :: n in Heights(branch)
    ensures Tracks(states[|events|], newChain) <==> UniqueTxs(newChain)
  {
    BranchOverlay(states, events, chain, branch, done, |events|);
    assert branch[..|branch|] == branch;
    BranchWritesOnce(states, events, branch, done);
    OnceTracksUnique(states, events, chain);
    CoveredIsTracked(states[|events|], chain, branch, ChainAt(chain, events, |events|), newChain);
  }

  /** Saving a new branch in ascending order, whatever other writers do between its blocks and however
      often a save is rolled back and retried, leaves the tables equal to the new chain exactly when
      the branch replaces every stored height from the fork point up, and no transaction is in two
      blocks of the new chain. */
  lemma BranchReplacement(
    states: seq<Db>, ops: seq<Op>, chain: Chain, branch: seq<MinedBlock>, newChain: Chain)
    requires SavesBranch(states, ops, branch) && Ascending(branch) && HashFixesTxs(chain, branch)
    requires Consistent(states[0]) && Tracks(states[0], chain) && IsNewChain(chain, branch, newChain)
    ensures Tracks(states[|ops|], newChain) <==>
      UniqueTxs(newChain) && forall n | n in chain && n >= branch[0].block.number :: n in Heights(branch)
  {
    var done :| Progress(states, ops, branch, done);
    BranchRunEvents(states, ops, branch, done);
    if Tracks(states[|ops|], newChain) {
      TracksCovered(states, Events(states, ops), chain, branch, done, newChain);
    }
    if forall n | n in chain && n >= branch[0].block.number :: n in Heights(branch) {
      CoveredTracks(states, Events(states, ops), chain, branch, done, newChain);
    }
  }

  lemma CoveredIsTracked(db: Db, chain: Chain, branch: seq<MinedBlock>, at: Chain, newChain: Chain)
    requires Overlay(chain, branch, at) && (Tracks(db, at) <==> UniqueTxs(at))
    requires IsNewChain(chain, branch, newChain)
    requires forall n | n in chain && n >= branch[0].block.number :: n in Heights(branch)
    requires forall b | b in branch :: branch[0].block.number <= b.block.number
    ensures Tracks(db, newChain) <==> UniqueTxs(newChain)
  {
    OverlayIsNewChain(chain, branch, at, newChain);
    TracksSame(db, at, newChain);
  }

  lemma TrackedIsCovered(db: Db, chain: Chain, branch: seq<MinedBlock>, at: Chain, newChain: Chain)
    requires SameBlocks(db, at) && Overlay(chain, branch, at)
    requires SameBlocks(db, newChain) && IsNewChain(chain, branch, newChain)
    ensures forall n | n in chain && n >= branch[0].block.number :: n in Heights(branch)
  {
    forall n | n in chain && n >= branch[0].block.number ensures n in Heights(branch) {
      assert n in at && n in db.blocks && n in newChain;
    }
  }
}
