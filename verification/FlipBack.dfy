/** A branch that flips back to a stored block: what the other branch took is not given back. */
module FlipBack {
  import opened Prelude
  import opened Schema
  import opened Ledger
  import opened LedgerInvariant
  import opened Reorg
  import opened MovedDown

  /** Block 1 lists t; block 2 of another branch lists t as well; block 1 is delivered again; an empty
      block replaces block 2. */
  function Deliveries(a: Address, t: Hash, h1: Hash, h2: Hash, h3: Hash): seq<Op> {
    [SaveMined(FullBlock(1, h1, t, a), 0), SaveMined(FullBlock(2, h2, t, a), 0),
     SaveMined(FullBlock(1, h1, t, a), 0), SaveMined(OneBlock(2, h3, [], []), 0)]
  }

  /** What the four deliveries write: all but the third. */
  function Written(a: Address, t: Hash, h1: Hash, h2: Hash, h3: Hash): seq<Event> {
    [Some(FullBlock(1, h1, t, a)), Some(FullBlock(2, h2, t, a)), None, Some(OneBlock(2, h3, [], []))]
  }

  /** One delivery that commits, and what it writes. */
  ghost predicate Delivers(db: Db, op: Op, e: Event, after: Db) {
    && op.SaveMined? && Attempt(db, op) == Ok(after)
    && e == if AlreadyStored(db, op.mb) then None else Some(op.mb)
  }

  /** A run of deliveries. */
  ghost predicate Ran(states: seq<Db>, ops: seq<Op>, events: seq<Event>) {
    && |states| == |ops| + 1 == |events| + 1
    && forall k | 0 <= k < |ops| :: Delivers(states[k], ops[k], events[k], states[k + 1])
  }

  lemma RanIsRun(states: seq<Db>, ops: seq<Op>, events: seq<Event>)
    requires Ran(states, ops, events)
    ensures IsRun(states, ops) && Events(states, ops) == events
    ensures forall k | 0 <= k < |ops| :: Attempt(states[k], ops[k]).Ok?
  {
    forall k | 0 <= k < |ops|
      ensures Attempt(states[k], ops[k]).Ok? && states[k + 1] == Step(states[k], ops[k])
      ensures events[k] == if Effective(states[k], ops[k]) then Some(ops[k].mb) else None
    {
      assert Delivers(states[k], ops[k], events[k], states[k + 1]);
    }
  }

  lemma RanMore(states: seq<Db>, ops: seq<Op>, events: seq<Event>, op: Op, e: Event, after: Db)
    requires Ran(states, ops, events) && Delivers(states[|ops|], op, e, after)
    ensures Ran(states + [after], ops + [op], events + [e])
  {
    forall k | 0 <= k < |ops| + 1
      ensures Delivers((states + [after])[k], (ops + [op])[k], (events + [e])[k], (states + [after])[k + 1])
    {
      if k < |ops| { assert Delivers(states[k], ops[k], events[k], states[k + 1]); }
    }
  }

  lemma Delivered(db: Db, mb: MinedBlock, after: Db)
    requires SaveBlock(db, mb, 0) == Ok(after)
    ensures Delivers(db, SaveMined(mb, 0), if AlreadyStored(db, mb) then None else Some(mb), after)
  {
  }

  lemma RanNext(states: seq<Db>, ops: seq<Op>, events: seq<Event>, mb: MinedBlock, after: Db)
    requires Ran(states, ops, events) && SaveBlock(states[|ops|], mb, 0) == Ok(after)
    ensures Ran(states + [after], ops + [SaveMined(mb, 0)],
                events + [if AlreadyStored(states[|ops|], mb) then None else Some(mb)])
  {
    var e := if AlreadyStored(states[|ops|], mb) then None else Some(mb);
    Delivered(states[|ops|], mb, after);
    RanMore(states, ops, events, SaveMined(mb, 0), e, after);
  }

  /** The hashes of the blocks stored. */
  ghost predicate Stored(db: Db, hashes: map<nat, Hash>) {
    db.blocks.Keys == hashes.Keys && forall m | m in hashes :: db.blocks[m].block.hash == hashes[m]
  }

  /** All stored transfers are of block n. */
  ghost predicate TransfersAt(db: Db, n: nat) {
    forall k | k in db.transfers :: db.transfers[k].blockNumber == n
  }

  lemma SaveFull(db: Db, hashes: map<nat, Hash>, n: nat, hash: Hash, t: Hash, a: Address) returns (after: Db)
    requires Consistent(db) && WellFormed(a) && Stored(db, hashes) && forall m | m in hashes :: hashes[m] != hash
    requires forall k | k in db.transfers :: db.transfers[k].blockNumber != n
    ensures SaveBlock(db, FullBlock(n, hash, t, a), 0) == Ok(after) && !AlreadyStored(db, FullBlock(n, hash, t, a))
    ensures Consistent(after) && FullEffect(db, after, n, hash, t, a)
  {
    after := SavedFull(db, n, hash, t, a);
  }

  lemma FullStored(db: Db, hashes: map<nat, Hash>, after: Db, n: nat, hash: Hash, t: Hash, a: Address)
    requires Stored(db, hashes) && FullEffect(db, after, n, hash, t, a)
    ensures Stored(after, hashes[n := hash]) && MinedAt(after, t, n)
    ensures db.transfers == map[] ==> TransfersAt(after, n)
  {
  }

  lemma DeliverFull(
    before: seq<Db>, ops: seq<Op>, events: seq<Event>, hashes: map<nat, Hash>, n: nat, hash: Hash, t: Hash, a: Address)
    returns (states: seq<Db>)
    requires Ran(before, ops, events) && WellFormed(a) && forall m | m in hashes :: hashes[m] != hash
    requires Consistent(before[|ops|]) && Stored(before[|ops|], hashes)
    requires forall k | k in before[|ops|].transfers :: before[|ops|].transfers[k].blockNumber != n
    ensures |states| == |before| + 1 && states[0] == before[0]
    ensures Ran(states, ops + [SaveMined(FullBlock(n, hash, t, a), 0)], events + [Some(FullBlock(n, hash, t, a))])
    ensures var db := states[|ops| + 1]; Consistent(db) && Stored(db, hashes[n := hash]) && MinedAt(db, t, n)
    ensures before[|ops|].transfers == map[] ==> TransfersAt(states[|ops| + 1], n)
  {
    var db := before[|ops|];
    var after := SaveFull(db, hashes, n, hash, t, a);
    FullStored(db, hashes, after, n, hash, t, a);
    RanNext(before, ops, events, FullBlock(n, hash, t, a), after);
    states := before + [after];
  }

  lemma DeliverAgain(
    before: seq<Db>, ops: seq<Op>, events: seq<Event>, mb: MinedBlock, h1: Hash, h2: Hash)
    returns (states: seq<Db>)
    requires Ran(before, ops, events) && Stored(before[|ops|], map[1 := h1, 2 := h2])
    requires mb.block.number == 1 && mb.block.hash == h1
    ensures states == before + [before[|ops|]] && Ran(states, ops + [SaveMined(mb, 0)], events + [None])
  {
    RanNext(before, ops, events, mb, before[|ops|]);
    states := before + [before[|ops|]];
  }

  lemma DeliverEmpty(
    before: seq<Db>, ops: seq<Op>, events: seq<Event>, t: Hash, h1: Hash, h2: Hash, h3: Hash)
    returns (states: seq<Db>)
    requires Ran(before, ops, events) && h3 != h1 && h3 != h2
    requires var db := before[|ops|]; Consistent(db) && Stored(db, map[1 := h1, 2 := h2]) && MinedAt(db, t, 2)
    ensures |states| == |before| + 1 && states[..|before|] == before
    ensures Ran(states, ops + [SaveMined(OneBlock(2, h3, [], []), 0)], events + [Some(OneBlock(2, h3, [], []))])
    ensures MinedNowhere(states[|ops| + 1], t)
  {
    var last := SavedEmpty(before[|ops|], 2, h3);
    RanNext(before, ops, events, OneBlock(2, h3, [], []), last);
    MinedOnce(before[|ops|], last, t);
    states := before + [last];
  }

  lemma FinalChain(a: Address, t: Hash, h1: Hash, h2: Hash, h3: Hash)
    ensures var events := Written(a, t, h1, h2, h3);
      && ChainAt(map[], events, 4) == TwoBlocks(FullBlock(1, h1, t, a), OneBlock(2, h3, [], []))
      && Lists(events[1], t) && Untouched(events, 1, 4, 1)
  {
    var events := Written(a, t, h1, h2, h3);
    var b1, b2, b3 := FullBlock(1, h1, t, a), FullBlock(2, h2, t, a), OneBlock(2, h3, [], []);
    assert ChainAt(map[], events, 1) == map[1 := b1];
    assert ChainAt(map[], events, 2) == map[1 := b1, 2 := b2];
    assert ChainAt(map[], events, 3) == map[1 := b1, 2 := b2];
    FullBlockFacts(2, h2, t, a, map[]);
  }

  lemma ChainHasT(a: Address, t: Hash, h1: Hash, h3: Hash)
    ensures var chain := TwoBlocks(FullBlock(1, h1, t, a), OneBlock(2, h3, [], []));
      UniqueTxs(chain) && Contains(chain, t, 1)
  {
    FullBlockFacts(1, h1, t, a, map[]);
  }

  ghost predicate MinedNowhere(db: Db, t: Hash) {
    forall n :: !MinedAt(db, t, n)
  }

  lemma MinedOnce(two: Db, last: Db, t: Hash)
    requires MinedAt(two, t, 2) && forall h, m :: MinedAt(last, h, m) <==> m != 2 && MinedAt(two, h, m)
    ensures MinedNowhere(last, t)
  {
  }

  lemma DeliverTwo(a: Address, t: Hash, h1: Hash, h2: Hash) returns (states: seq<Db>, ops: seq<Op>, events: seq<Event>)
    requires WellFormed(a) && h1 != h2
    ensures ops == [] + [SaveMined(FullBlock(1, h1, t, a), 0)] + [SaveMined(FullBlock(2, h2, t, a), 0)]
    ensures events == [] + [Some(FullBlock(1, h1, t, a))] + [Some(FullBlock(2, h2, t, a))]
    ensures Ran(states, ops, events) && |ops| == 2 && states[0] == EMPTY
    ensures Consistent(states[2]) && Stored(states[2], map[1 := h1, 2 := h2]) && MinedAt(states[2], t, 2)
  {
    EmptyConsistent();
    ops, events := [] + [SaveMined(FullBlock(1, h1, t, a), 0)], [] + [Some(FullBlock(1, h1, t, a))];
    states := DeliverFull([EMPTY], [], [], map[], 1, h1, t, a);
    states := DeliverFull(states, ops, events, map[][1 := h1], 2, h2, t, a);
    ops, events := ops + [SaveMined(FullBlock(2, h2, t, a), 0)], events + [Some(FullBlock(2, h2, t, a))];
  }

  lemma DeliverFour(a: Address, t: Hash, h1: Hash, h2: Hash, h3: Hash)
    returns (states: seq<Db>, ops: seq<Op>, events: seq<Event>)
    requires WellFormed(a) && h1 != h2 && h3 != h1 && h3 != h2
    ensures ops == Deliveries(a, t, h1, h2, h3) && events == Written(a, t, h1, h2, h3)
    ensures Ran(states, ops, events) && |ops| == 4 && states[0] == EMPTY
    ensures MinedAt(states[3], t, 2) && MinedNowhere(states[4], t)
  {
    states, ops, events := DeliverTwo(a, t, h1, h2);
    states := DeliverAgain(states, ops, events, FullBlock(1, h1, t, a), h1, h2);
    ops, events := ops + [SaveMined(FullBlock(1, h1, t, a), 0)], events + [None];
    states := DeliverEmpty(states, ops, events, t, h1, h2, h3);
    ops, events := ops + [SaveMined(OneBlock(2, h3, [], []), 0)], events + [Some(OneBlock(2, h3, [], []))];
  }

  /** From empty tables, four deliveries that all commit. The resulting chain has t in block 1 and
      nowhere else; after the third the table still has t at height 2, after the fourth nowhere. */
  lemma FlipBackReached(a: Address, t: Hash, h1: Hash, h2: Hash, h3: Hash) returns (states: seq<Db>)
    requires WellFormed(a) && h1 != h2 && h3 != h1 && h3 != h2
    ensures IsRun(states, Deliveries(a, t, h1, h2, h3)) && states[0] == EMPTY
    ensures forall k | 0 <= k < 4 :: Attempt(states[k], Deliveries(a, t, h1, h2, h3)[k]).Ok?
    ensures var chain := ChainAt(map[], Events(states, Deliveries(a, t, h1, h2, h3)), 4);
      UniqueTxs(chain) && Contains(chain, t, 1) && !Tracks(states[4], chain)
    ensures MinedAt(states[3], t, 2) && MinedNowhere(states[4], t)
  {
    var ops, events;
    states, ops, events := DeliverFour(a, t, h1, h2, h3);
    RanIsRun(states, ops, events);
    FinalChain(a, t, h1, h2, h3);
    ChainHasT(a, t, h1, h3);
    EmptyConsistent();
    EmptyTracks([]);
    FlipBackNotRepaired(states, ops, map[], 1, t, 1);
  }
}
