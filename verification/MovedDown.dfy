/** A reorganisation of two blocks that moves a transaction down: its transfer is lost. */
module MovedDown {
  import opened Prelude
  import opened Schema
  import opened Ledger
  import opened LedgerInvariant
  import opened Commit
  import opened Reorg
  import opened TransferTable

  function OneBlock(number: nat, hash: Hash, list: seq<Tx>, transfers: seq<Transfer>): MinedBlock {
    MinedBlock(Block(number, hash, "", 0, |list|, 0, None), list, map[], transfers)
  }

  function FullBlock(number: nat, hash: Hash, t: Hash, a: Address): MinedBlock {
    OneBlock(number, hash, [Tx(t, a, a, Payload(0, 0, 0, None, 0, 0, []), 0, "")], [Transfer(t, 0, a, a, a, 7)])
  }

  lemma FullBlockFacts(n: nat, hash: Hash, t: Hash, a: Address, table: map<TransferKey, TransferRow>)
    ensures var mb := FullBlock(n, hash, t, a);
      && HashSet(mb.transactions) == {t}
      && InsertRows(table, n, mb.transfers) ==
           if TransferKey(t, 0) in table then table
           else table[TransferKey(t, 0) := TransferRow(n, a, a, a, 7)]
  {
  }

  lemma FullBlockAcceptable(db: Db, n: nat, hash: Hash, t: Hash, a: Address)
    requires WellFormed(a) && forall m | m in db.blocks :: db.blocks[m].block.hash != hash
    ensures Acceptable(db, FullBlock(n, hash, t, a))
  {
    var tx, tt := Tx(t, a, a, Payload(0, 0, 0, None, 0, 0, []), 0, ""), Transfer(t, 0, a, a, a, 7);
    AddressShape(a);
    assert [tx][0] == tx && tx in [tx] && [tt][0] == tt;
    OneOfEach(db, OneBlock(n, hash, [tx], [tt]), tx, tt);
  }

  lemma OneOfEach(db: Db, mb: MinedBlock, tx: Tx, tt: Transfer)
    requires mb.transactions == [tx] && mb.transfers == [tt]
    requires forall n | n in db.blocks && n != mb.block.number :: db.blocks[n].block.hash != mb.block.hash
    requires IsAddress(tx.from) && IsAddress(tx.to) && IsAddress(tx.created) && tx.from != ""
    requires IsAddress(tt.token) && IsAddress(tt.from) && IsAddress(tt.to)
    requires tt.txHash == tx.hash && tt.token != "" && tt.from != "" && tt.to != ""
    ensures Acceptable(db, mb)
  {
    assert tx in mb.transactions;
  }

  lemma EmptyBlockAcceptable(db: Db, n: nat, hash: Hash)
    requires forall m | m in db.blocks :: db.blocks[m].block.hash != hash
    ensures Acceptable(db, OneBlock(n, hash, [], []))
  {
  }

  lemma Saved(db: Db, mb: MinedBlock) returns (after: Db)
    requires Consistent(db) && !AlreadyStored(db, mb) && Acceptable(db, mb)
    ensures SaveBlock(db, mb, 0) == Ok(after)
    ensures Consistent(after) && BlockEffect(db, after, mb)
  {
    SaveBlockCommits(db, mb, 0);
    after := SaveBlock(db, mb, 0).value;
    SaveBlockKeeps(db, mb, 0, after);
    SaveBlockEffect(db, mb, 0, after);
  }

  /** Transaction t, with its one transfer, is mined at height 2 of a two-block chain. */
  ghost predicate MinedAtTwo(db: Db, a: Address, t: Hash) {
    && Consistent(db) && WellFormed(a)
    && db.blocks.Keys == {1, 2}
    && MinedAt(db, t, 2)
    && db.transfers == map[TransferKey(t, 0) := TransferRow(2, a, a, a, 7)]
  }

  /** Such tables are what the writers make of an empty block and a full one. */
  lemma MinedAtTwoReached(a: Address, t: Hash, h1: Hash, h2: Hash) returns (first: Db, db: Db)
    requires WellFormed(a) && h1 != h2
    ensures SaveBlock(EMPTY, OneBlock(1, h1, [], []), 0) == Ok(first)
    ensures SaveBlock(first, FullBlock(2, h2, t, a), 0) == Ok(db)
    ensures MinedAtTwo(db, a, t)
  {
    EmptyConsistent();
    EmptyBlockAcceptable(EMPTY, 1, h1);
    first := Saved(EMPTY, OneBlock(1, h1, [], []));
    assert first.transfers == map[];
    db := SavedFull(first, 2, h2, t, a);
  }

  lemma SavedFull(db: Db, n: nat, hash: Hash, t: Hash, a: Address) returns (after: Db)
    requires Consistent(db) && WellFormed(a) && forall m | m in db.blocks :: db.blocks[m].block.hash != hash
    requires forall k | k in db.transfers :: db.transfers[k].blockNumber != n
    ensures SaveBlock(db, FullBlock(n, hash, t, a), 0) == Ok(after)
    ensures Consistent(after) && FullEffect(db, after, n, hash, t, a)
  {
    FullBlockAcceptable(db, n, hash, t, a);
    after := Saved(db, FullBlock(n, hash, t, a));
    FullBlockFacts(n, hash, t, a, db.transfers);
    FullEffectHolds(db, after, FullBlock(n, hash, t, a), t, a);
  }

  ghost predicate FullEffect(db: Db, after: Db, n: nat, hash: Hash, t: Hash, a: Address) {
    && after.blocks.Keys == db.blocks.Keys + {n} && MinedAt(after, t, n)
    && (forall m | m in after.blocks ::
          after.blocks[m].block.hash == if m == n then hash else db.blocks[m].block.hash)
    && after.transfers == if TransferKey(t, 0) in db.transfers then db.transfers
         else db.transfers[TransferKey(t, 0) := TransferRow(n, a, a, a, 7)]
  }

  lemma FullEffectHolds(db: Db, after: Db, mb: MinedBlock, t: Hash, a: Address)
    requires BlockEffect(db, after, mb) && HashSet(mb.transactions) == {t}
    requires forall k | k in db.transfers :: db.transfers[k].blockNumber != mb.block.number
    requires InsertRows(db.transfers, mb.block.number, mb.transfers) ==
      if TransferKey(t, 0) in db.transfers then db.transfers
      else db.transfers[TransferKey(t, 0) := TransferRow(mb.block.number, a, a, a, 7)]
    ensures FullEffect(db, after, mb.block.number, mb.block.hash, t, a)
  {
    assert RemoveTransfersOf(db.transfers, mb.block.number) == db.transfers;
  }

  lemma SavedEmpty(db: Db, n: nat, hash: Hash) returns (after: Db)
    requires Consistent(db) && forall m | m in db.blocks :: db.blocks[m].block.hash != hash
    ensures SaveBlock(db, OneBlock(n, hash, [], []), 0) == Ok(after)
    ensures forall h, m :: MinedAt(after, h, m) <==> m != n && MinedAt(db, h, m)
    ensures after.transfers == RemoveTransfersOf(db.transfers, n)
  {
    EmptyBlockAcceptable(db, n, hash);
    after := Saved(db, OneBlock(n, hash, [], []));
  }

  ghost predicate FreeHash(db: Db, hash: Hash) {
    forall m | m in db.blocks :: db.blocks[m].block.hash != hash
  }

  lemma AfterFull(db: Db, mid: Db, a: Address, t: Hash, h1: Hash, h2: Hash)
    requires MinedAtTwo(db, a, t) && FullEffect(db, mid, 1, h1, t, a) && FreeHash(db, h2) && h1 != h2
    ensures FreeHash(mid, h2) && MinedAt(mid, t, 1)
    ensures RemoveTransfersOf(mid.transfers, 2) == map[]
    ensures TransferKey(t, 0) in BlockRows(FullBlock(1, h1, t, a))
  {
    FullBlockFacts(1, h1, t, a, map[]);
    assert mid.transfers == db.transfers;
  }

  /** A branch now replaces block 1 by one holding t and its transfer, and block 2 by an empty
      one: both blocks commit, t is mined at height 1, and its transfer is gone. */
  lemma MovedDownExample(db: Db, a: Address, t: Hash, h1: Hash, h2: Hash) returns (mid: Db, after: Db)
    requires MinedAtTwo(db, a, t) && FreeHash(db, h1) && FreeHash(db, h2) && h1 != h2
    ensures SaveBlock(db, FullBlock(1, h1, t, a), 0) == Ok(mid)
    ensures SaveBlock(mid, OneBlock(2, h2, [], []), 0) == Ok(after)
    ensures TransferKey(t, 0) in BlockRows(FullBlock(1, h1, t, a))
    ensures MinedAt(after, t, 1) && after.transfers == map[]
  {
    mid := SavedFull(db, 1, h1, t, a);
    AfterFull(db, mid, a, t, h1, h2);
    after := SavedEmpty(mid, 2, h2);
  }

  lemma SaveIsStep(db: Db, mb: MinedBlock, after: Db)
    requires SaveBlock(db, mb, 0) == Ok(after)
    ensures Saves(db, SaveMined(mb, 0), mb, after)
  {
  }

  ghost predicate Saves(db: Db, op: Op, mb: MinedBlock, after: Db) {
    op.SaveMined? && op.mb == mb && Attempt(db, op).Ok? && after == Step(db, op)
  }

  lemma TwoSteps(states: seq<Db>, ops: seq<Op>, branch: seq<MinedBlock>)
    requires |states| == 3 && |ops| == 2 && |branch| == 2
    requires Saves(states[0], ops[0], branch[0], states[1]) && Saves(states[1], ops[1], branch[1], states[2])
    ensures SavesBranch(states, ops, branch)
  {
    assert forall k | 0 <= k < 2 :: Saves(states[k], ops[k], branch[k], states[k + 1]);
    assert Progress(states, ops, branch, [0, 1, 2]);
  }

  lemma TwoSaves(db: Db, mid: Db, after: Db, b1: MinedBlock, b2: MinedBlock)
    requires SaveBlock(db, b1, 0) == Ok(mid) && SaveBlock(mid, b2, 0) == Ok(after)
    ensures SavesBranch([db, mid, after], [SaveMined(b1, 0), SaveMined(b2, 0)], [b1, b2])
  {
    SaveIsStep(db, b1, mid);
    SaveIsStep(mid, b2, after);
    TwoSteps([db, mid, after], [SaveMined(b1, 0), SaveMined(b2, 0)], [b1, b2]);
  }

  function TwoBlocks(b1: MinedBlock, b2: MinedBlock): Chain { map[1 := b1, 2 := b2] }

  lemma TwoBlockChain(chain: Chain, b1: MinedBlock, b2: MinedBlock)
    requires b1.block.number == 1 && b2.block.number == 2 && chain.Keys <= {1, 2}
    ensures IsNewChain(chain, [b1, b2], TwoBlocks(b1, b2)) && Ascending([b1, b2]) && Heights([b1, b2]) == {1, 2}
  {
    assert b1 in [b1, b2] && b2 in [b1, b2];
  }

  lemma TwoBlockBranch(states: seq<Db>, ops: seq<Op>, chain: Chain, b1: MinedBlock, b2: MinedBlock)
    requires |states| == 3 && |ops| == 2 && SavesBranch(states, ops, [b1, b2])
    requires Consistent(states[0]) && Tracks(states[0], chain) && chain.Keys <= {1, 2}
    requires b1.block.number == 1 && b2.block.number == 2
    requires HashFixesTxs(chain, [b1, b2]) && UniqueTxs(TwoBlocks(b1, b2))
    ensures Tracks(states[2], TwoBlocks(b1, b2))
  {
    TwoBlockChain(chain, b1, b2);
    BranchReplacement(states, ops, chain, [b1, b2], TwoBlocks(b1, b2));
  }

  /** Two such blocks share no transaction, and their hashes tell them from the blocks before. */
  lemma TwoBlockFacts(a: Address, t: Hash, h1: Hash, h2: Hash, h3: Hash, h4: Hash)
    requires {h3, h4} !! {h1, h2}
    ensures UniqueTxs(TwoBlocks(OneBlock(1, h1, [], []), FullBlock(2, h2, t, a)))
    ensures UniqueTxs(TwoBlocks(FullBlock(1, h3, t, a), OneBlock(2, h4, [], [])))
    ensures HashFixesTxs(
      TwoBlocks(OneBlock(1, h1, [], []), FullBlock(2, h2, t, a)), [FullBlock(1, h3, t, a), OneBlock(2, h4, [], [])])
  {
  }

  lemma EmptyTracks(branch: seq<MinedBlock>)
    ensures Tracks(EMPTY, map[]) && HashFixesTxs(map[], branch)
  {
  }

  lemma FirstChain(a: Address, t: Hash, h1: Hash, h2: Hash) returns (db: Db)
    requires WellFormed(a) && h1 != h2
    requires UniqueTxs(TwoBlocks(OneBlock(1, h1, [], []), FullBlock(2, h2, t, a)))
    ensures MinedAtTwo(db, a, t) && Tracks(db, TwoBlocks(OneBlock(1, h1, [], []), FullBlock(2, h2, t, a)))
  {
    var b1, b2 := OneBlock(1, h1, [], []), FullBlock(2, h2, t, a);
    var first;
    first, db := MinedAtTwoReached(a, t, h1, h2);
    EmptyConsistent();
    EmptyTracks([b1, b2]);
    TwoSaves(EMPTY, first, db, b1, b2);
    TwoBlockBranch([EMPTY, first, db], [SaveMined(b1, 0), SaveMined(b2, 0)], map[], b1, b2);
  }

  /** In that reorganisation the transaction table follows the chain and the transfer table does not. */
  lemma OnlyTransfersFallBehind(a: Address, t: Hash, h1: Hash, h2: Hash, h3: Hash, h4: Hash) returns (after: Db)
    requires WellFormed(a) && h1 != h2 && h3 != h4 && {h3, h4} !! {h1, h2}
    ensures var chain := TwoBlocks(FullBlock(1, h3, t, a), OneBlock(2, h4, [], []));
      Tracks(after, chain) && !TransfersTrack(after, chain)
  {
    TwoBlockFacts(a, t, h1, h2, h3, h4);
    var db := FirstChain(a, t, h1, h2);
    var before := TwoBlocks(OneBlock(1, h1, [], []), FullBlock(2, h2, t, a));
    HashesOf(db, before);
    var b1, b2, mid := FullBlock(1, h3, t, a), OneBlock(2, h4, [], []), db;
    mid, after := MovedDownExample(db, a, t, h3, h4);
    TwoSaves(db, mid, after, b1, b2);
    TwoBlockBranch([db, mid, after], [SaveMined(b1, 0), SaveMined(b2, 0)], before, b1, b2);
    LostRow(after, TwoBlocks(b1, b2), TransferKey(t, 0));
  }

  lemma HashesOf(db: Db, chain: Chain)
    requires Tracks(db, chain)
    ensures forall m | m in db.blocks :: m in chain && db.blocks[m].block.hash == chain[m].block.hash
  {
  }

  lemma LostRow(db: Db, chain: Chain, k: TransferKey)
    requires 1 in chain && chain[1].block.number == 1 && k in BlockRows(chain[1]) && k !in db.transfers
    ensures !TransfersTrack(db, chain)
  {
    BlockRowFacts(chain[1], k);
    assert ChainHasRow(chain, k, BlockRows(chain[1])[k]) && !HasRow(db.transfers, k, BlockRows(chain[1])[k]);
  }
}
