/** The enrichment worker: what one claimed job does to the other stores, and what it does to the
    queue. */
module Enrichment {
  import opened Prelude
  import opened Schema
  import opened Ledger
  import opened LedgerInvariant
  import opened PostgresStore
  import SavedRows
  import SavedTables

  // ----- One transaction -----

  /** A stored token transfer, with its block's time. */
  datatype Stored = Stored(transfer: Transfer, minedAt: Time)

  /** How the calls of one enrichment end. A read that fails midway still returns the transfers it
      got, and enrich goes on with them. */
  datatype Services = Services(
    edgeSaved: bool, transfers: seq<Stored>, transfersRead: bool, transfersSaved: bool, analysed: bool)

  datatype Fault = EdgeFault | ReadFault | TransfersFault | AnalysisFault

  datatype Effect =
    | SaveEdge(hash: Hash)
    | SaveTransfers(transfers: seq<Stored>)
    | Analyse(address: Address)
    | Detect(hash: Hash, from: Address, to: Address, at: Time, token: bool)

  /** The address whose code the transaction reveals, "" if none. */
  function ContractTarget(tx: Tx): Address {
    if tx.created != "" then tx.created
    else if tx.to != "" && |tx.payload.data| > 0 then tx.to
    else ""
  }

  /** Every store call that was made succeeded. */
  predicate AllSucceeded(tx: Tx, graph: bool, services: Services) {
    && (graph && tx.to != "" ==> services.edgeSaved)
    && services.transfersRead
    && (graph && services.transfers != [] ==> services.transfersSaved)
    && (ContractTarget(tx) != "" ==> services.analysed)
  }

  /** The graph holds every edge it was given of this transaction, and at least one; or there is no
      graph database to wait for. */
  predicate GraphHolds(tx: Tx, graph: bool, services: Services) {
    graph ==>
      && (tx.to != "" || services.transfers != [])
      && (tx.to != "" ==> services.edgeSaved)
      && (services.transfers != [] ==> services.transfersSaved)
  }

  function TokenDetections(transfers: seq<Stored>): seq<Effect> {
    seq(|transfers|, i requires 0 <= i < |transfers| =>
      var tt := transfers[i].transfer;
      Detect(tt.txHash, tt.from, tt.to, transfers[i].minedAt, true))
  }

  /** A plain value transfer first, then every token transfer. */
  function Detections(tx: Tx, transfers: seq<Stored>): seq<Effect> {
    (if tx.to != "" && tx.payload.data == [] && tx.payload.value != 0
     then [Detect(tx.hash, tx.from, tx.to, tx.timestamp, false)] else [])
    + TokenDetections(transfers)
  }

  /** The writes attempted, in order. */
  function Writes(tx: Tx, graph: bool, services: Services): seq<Effect> {
    (if graph && tx.to != "" then [SaveEdge(tx.hash)] else [])
    + (if graph && services.transfers != [] then [SaveTransfers(services.transfers)] else [])
    + (if ContractTarget(tx) != "" then [Analyse(ContractTarget(tx))] else [])
  }

  method DetectLoops(tx: Tx, transfers: seq<Stored>) returns (found: seq<Effect>)
    ensures found == Detections(tx, transfers)
  {
    found := [];
    if tx.to != "" && |tx.payload.data| == 0 && tx.payload.value != 0 {
      found := [Detect(tx.hash, tx.from, tx.to, tx.timestamp, false)];
    }
    ghost var plain := found;
    for i := 0 to |transfers|
      invariant found == plain + TokenDetections(transfers[..i])
    {
      var tt := transfers[i].transfer;
      found := found + [Detect(tt.txHash, tt.from, tt.to, transfers[i].minedAt, true)];
    }
    assert transfers[..|transfers|] == transfers;
  }

  /** The writes, and then the loops looked for if the graph holds all there is to hold. */
  function EffectsOf(tx: Tx, graph: bool, circular: bool, services: Services): seq<Effect> {
    Writes(tx, graph, services) +
    if circular && GraphHolds(tx, graph, services) then Detections(tx, services.transfers) else []
  }

  /** The detector can look: there is no graph database, or it was given at least one edge of the transaction
      and has saved all it was given. */
  predicate Ready(tx: Tx, graph: bool, services: Services) {
    !graph
    || (tx.to != "" && services.edgeSaved && (services.transfers == [] || services.transfersSaved))
    || (tx.to == "" && services.transfers != [] && services.transfersSaved)
  }

  predicate DetectsTransfer(e: Effect, st: Stored) {
    && e.Detect? && e.token && e.hash == st.transfer.txHash && e.from == st.transfer.from && e.to == st.transfer.to
    && e.at == st.minedAt
  }

  /** Which calls an enrichment makes: the transaction is saved if it has a recipient, its transfers if it has
      any; the contract it created is analysed, or else the recipient of a call with data; and once the graph
      is ready a loop is looked for behind a plain transfer of value and behind every token transfer. */
  lemma EffectsAre(tx: Tx, graph: bool, circular: bool, services: Services, e: Effect)
    ensures e in EffectsOf(tx, graph, circular, services) <==>
      match e
      case SaveEdge(h) => graph && tx.to != "" && h == tx.hash
      case SaveTransfers(list) => graph && list != [] && list == services.transfers
      case Analyse(a) =>
        a != "" && (a == tx.created || (tx.created == "" && a == tx.to && tx.payload.data != []))
      case Detect(h, from, to, at, token) =>
        && circular && Ready(tx, graph, services)
        && if token then exists st | st in services.transfers :: DetectsTransfer(e, st)
           else h == tx.hash && from == tx.from && to == tx.to && at == tx.timestamp
                && tx.to != "" && tx.payload.data == [] && tx.payload.value != 0
  {
    DetectionsAre(tx, services.transfers, e);
  }

  lemma DetectionsAre(tx: Tx, transfers: seq<Stored>, e: Effect)
    ensures e in Detections(tx, transfers) <==>
      || (e == Detect(tx.hash, tx.from, tx.to, tx.timestamp, false)
          && tx.to != "" && tx.payload.data == [] && tx.payload.value != 0)
      || exists st | st in transfers :: DetectsTransfer(e, st)
  {
    var tokens := TokenDetections(transfers);
    assert forall i | 0 <= i < |tokens| :: DetectsTransfer(tokens[i], transfers[i]) && transfers[i] in transfers;
    if st :| st in transfers && DetectsTransfer(e, st) {
      var i :| 0 <= i < |transfers| && transfers[i] == st;
      assert tokens[i] == e;
    }
  }

  function Rank(e: Effect): nat {
    match e
    case SaveEdge(_) => 0
    case SaveTransfers(_) => 1
    case Analyse(_) => 2
    case Detect(_, _, _, _, token) => if token then 4 else 3
  }

  /** Ranks rise from lo to hi, but that any number of token transfers may follow one another. */
  ghost predicate Ordered(effects: seq<Effect>, lo: nat, hi: nat) {
    && (forall i | 0 <= i < |effects| :: lo <= Rank(effects[i]) <= hi)
    && forall i, j | 0 <= i < j < |effects| ::
         Rank(effects[i]) < Rank(effects[j]) || Rank(effects[i]) == Rank(effects[j]) == 4
  }

  lemma OrderedJoin(a: seq<Effect>, b: seq<Effect>, lo: nat, mid: nat, hi: nat)
    requires Ordered(a, lo, mid) && Ordered(b, mid + 1, hi) && lo <= mid <= hi
    ensures Ordered(a + b, lo, hi)
  {
  }

  /** A call made if c holds. */
  function Only(c: bool, e: Effect): seq<Effect> { if c then [e] else [] }

  lemma OnlyOrdered(c: bool, e: Effect, rank: nat)
    requires Rank(e) == rank
    ensures Ordered(Only(c, e), rank, rank)
  {
  }

  lemma ThreeOrdered(a: bool, x: Effect, b: bool, y: Effect, c: bool, z: Effect)
    requires Rank(x) == 0 && Rank(y) == 1 && Rank(z) == 2
    ensures Ordered(Only(a, x) + Only(b, y) + Only(c, z), 0, 2)
  {
    OnlyOrdered(a, x, 0);
    OnlyOrdered(b, y, 1);
    OnlyOrdered(c, z, 2);
    OrderedJoin(Only(a, x), Only(b, y), 0, 0, 1);
    OrderedJoin(Only(a, x) + Only(b, y), Only(c, z), 0, 1, 2);
  }

  lemma WritesOrdered(tx: Tx, graph: bool, services: Services)
    ensures Ordered(Writes(tx, graph, services), 0, 2)
  {
    ThreeOrdered(graph && tx.to != "", SaveEdge(tx.hash),
                 graph && services.transfers != [], SaveTransfers(services.transfers),
                 ContractTarget(tx) != "", Analyse(ContractTarget(tx)));
  }

  lemma TokensOrdered(transfers: seq<Stored>)
    ensures Ordered(TokenDetections(transfers), 4, 4) && |TokenDetections(transfers)| == |transfers|
    ensures forall i | 0 <= i < |transfers| :: DetectsTransfer(TokenDetections(transfers)[i], transfers[i])
  {
  }

  lemma DetectionsOrdered(tx: Tx, transfers: seq<Stored>)
    ensures Ordered(Detections(tx, transfers), 3, 4)
    ensures exists plain :: Detections(tx, transfers) == plain + TokenDetections(transfers)
  {
    var c, e := tx.to != "" && tx.payload.data == [] && tx.payload.value != 0,
                Detect(tx.hash, tx.from, tx.to, tx.timestamp, false);
    OnlyOrdered(c, e, 3);
    TokensOrdered(transfers);
    OrderedJoin(Only(c, e), TokenDetections(transfers), 3, 3, 4);
    assert Detections(tx, transfers) == Only(c, e) + TokenDetections(transfers);
  }

  lemma InOrder(tx: Tx, graph: bool, circular: bool, services: Services)
    ensures Ordered(EffectsOf(tx, graph, circular, services), 0, 4)
  {
    var writes := Writes(tx, graph, services);
    WritesOrdered(tx, graph, services);
    if circular && GraphHolds(tx, graph, services) {
      DetectionsOrdered(tx, services.transfers);
      OrderedJoin(writes, Detections(tx, services.transfers), 0, 2, 4);
    } else {
      assert writes + [] == writes;
    }
  }

  lemma TokensLast(tx: Tx, graph: bool, services: Services) returns (head: seq<Effect>)
    requires Ready(tx, graph, services)
    ensures EffectsOf(tx, graph, true, services) == head + TokenDetections(services.transfers)
  {
    DetectionsOrdered(tx, services.transfers);
    var plain :| Detections(tx, services.transfers) == plain + TokenDetections(services.transfers);
    head := Writes(tx, graph, services) + plain;
  }

  /** The last effects detect these transfers, one after another. */
  ghost predicate EndsDetecting(effects: seq<Effect>, transfers: seq<Stored>) {
    && |effects| >= |transfers|
    && forall i | 0 <= i < |transfers| :: DetectsTransfer(effects[|effects| - |transfers| + i], transfers[i])
  }

  lemma EndsWithTokens(effects: seq<Effect>, head: seq<Effect>, transfers: seq<Stored>)
    requires effects == head + TokenDetections(transfers)
    ensures EndsDetecting(effects, transfers)
  {
    TokensOrdered(transfers);
  }

  /** In which order: each kind once, and the token transfers last, one after another as they were read. */
  lemma EffectsInOrder(tx: Tx, graph: bool, circular: bool, services: Services)
    ensures Ordered(EffectsOf(tx, graph, circular, services), 0, 4)
    ensures circular && Ready(tx, graph, services) ==>
      EndsDetecting(EffectsOf(tx, graph, circular, services), services.transfers)
  {
    InOrder(tx, graph, circular, services);
    if circular && Ready(tx, graph, services) {
      var head := TokensLast(tx, graph, services);
      EndsWithTokens(EffectsOf(tx, graph, circular, services), head, services.transfers);
    }
  }

  /** The row of a claimed job is the transaction that was written: pending, as it was observed. */
  lemma ClaimReturnsPending(db: Db, tx: Tx, now: Time, after: Db)
    requires SavePending(db, tx, now) == Ok(after) && tx.hash !in db.txs
    ensures Claimed(tx.hash, after.txs[tx.hash]) == tx.(created := "")
  {
    SavedTables.SavePendingRows(db, tx, now, after);
  }

  /** And from a block: with the contract it created, and as the block has it unless it was stored already. */
  lemma ClaimReturnsMined(db: Db, mb: MinedBlock, now: Time, after: Db, t: Tx)
    requires Consistent(db) && SaveBlock(db, mb, now) == Ok(after) && t in mb.transactions
    requires mb.block.number in db.blocks ==> db.blocks[mb.block.number].block.hash != mb.block.hash
    ensures t.hash in after.txs
    ensures var claimed := Claimed(t.hash, after.txs[t.hash]);
      if t.hash in db.txs then claimed == Claimed(t.hash, db.txs[t.hash]).(created := t.created)
      else claimed == t.(timestamp := mb.block.minedAt)
  {
    SavedRows.SaveBlockRows(db, mb, now, after);
    MinedRowClaimed(db.txs, after.txs, mb, t);
  }

  lemma MinedRowClaimed(before: map<Hash, TxRow>, after: map<Hash, TxRow>, mb: MinedBlock, t: Tx)
    requires SavedRows.RowsEffect(before, after, mb) && t in mb.transactions
    ensures t.hash in after
    ensures var claimed := Claimed(t.hash, after[t.hash]);
      if t.hash in before then claimed == Claimed(t.hash, before[t.hash]).(created := t.created)
      else claimed == t.(timestamp := mb.block.minedAt)
  {
    assert SavedRows.IsMinedRow(before, after, mb, t);
  }

  /** enrich: no error is reported exactly when every call succeeded, and each failure is; loops are looked for
      exactly when the graph holds all there is to hold. */
  method Enrich(tx: Tx, graph: bool, circular: bool, services: Services)
    returns (errs: seq<Fault>, effects: seq<Effect>)
    ensures errs == [] <==> AllSucceeded(tx, graph, services)
    ensures EdgeFault in errs <==> graph && tx.to != "" && !services.edgeSaved
    ensures ReadFault in errs <==> !services.transfersRead
    ensures TransfersFault in errs <==> graph && services.transfers != [] && !services.transfersSaved
    ensures AnalysisFault in errs <==>
      (tx.created != "" || (tx.to != "" && tx.payload.data != [])) && !services.analysed
    ensures effects == EffectsOf(tx, graph, circular, services)
  {
    errs, effects := [], [];
    var graphReady := !graph;
    if graph && tx.to != "" {
      effects := effects + [SaveEdge(tx.hash)];
      if !services.edgeSaved { errs := errs + [EdgeFault]; } else { graphReady := true; }
    }
    assert graphReady == (graph ==> tx.to != "" && services.edgeSaved);

    var transfers := services.transfers;
    if !services.transfersRead { errs := errs + [ReadFault]; }
    if graph && |transfers| > 0 {
      effects := effects + [SaveTransfers(transfers)];
      if !services.transfersSaved {
        errs := errs + [TransfersFault];
        graphReady := false;
      } else if tx.to == "" {
        graphReady := true;
      }
    }
    assert graphReady == GraphHolds(tx, graph, services);

    var target := ContractTarget(tx);
    if target != "" {
      effects := effects + [Analyse(target)];
      if !services.analysed { errs := errs + [AnalysisFault]; }
    }
    assert effects == Writes(tx, graph, services);

    if circular && graphReady {
      var found := DetectLoops(tx, transfers);
      effects := effects + found;
    }
  }

  // ----- The worker loop -----

  /** What the world does to one pass of the loop: other writers act before the claim and between the
      claim and the mark. */
  datatype Pass = Pass(
    ended: bool, before: Others, claimFails: bool, locked: set<Hash>, claimAt: Time, woken: bool,
    services: Services, between: Others, endedMeanwhile: bool, markLost: bool, markAt: Time)

  /** The foreign key of the queue. */
  ghost predicate JobsHaveTxs(db: Db) {
    forall h | h in db.jobs :: h in db.txs
  }

  ghost predicate KeepsKeys(others: Others) {
    forall db :: JobsHaveTxs(db) ==> JobsHaveTxs(others(db))
  }

  ghost predicate Lawful(pass: Pass) {
    KeepsKeys(pass.before) && KeepsKeys(pass.between)
  }

  /** The claimed row as enrich receives it. */
  function Claimed(hash: Hash, row: TxRow): Tx {
    Tx(hash, row.from, if row.to.Some? then row.to.value else "", row.payload, row.timestamp,
       if row.created.Some? then row.created.value else "")
  }

  /** What the worker did to the queue in one pass. */
  datatype Turn = Nothing | ClaimOnly(hash: Hash) | ClaimDone(hash: Hash) | ClaimFailed(hash: Hash)

  /** The tables after a turn, with what the others did before and between. */
  ghost function AfterTurn(db: Db, pass: Pass, turn: Turn): Db {
    var found := pass.before(db);
    match turn
    case Nothing => found
    case ClaimOnly(h) => pass.between(Step(found, Claim(h, pass.claimAt)))
    case ClaimDone(h) => Step(pass.between(Step(found, Claim(h, pass.claimAt))), Complete(h, pass.markAt))
    case ClaimFailed(h) => Step(pass.between(Step(found, Claim(h, pass.claimAt))), Fail(h, pass.markAt))
  }

  /** Every call of the enrichment of the claimed job succeeded. */
  ghost predicate Succeeded(found: Db, graph: bool, pass: Pass, h: Hash) {
    h in found.txs && AllSucceeded(Claimed(h, found.txs[h]), graph, pass.services)
  }

  /** The enrichment failed because the context ended: the job stays claimed and the worker stops. */
  ghost predicate Interrupted(found: Db, graph: bool, pass: Pass, h: Hash) {
    !Succeeded(found, graph, pass, h) && pass.endedMeanwhile
  }

  /** The turn is the one the enrichment earned: a claim of a claimable job, then done if and only if all
      its calls succeeded, failed if and only if one did not, and no mark if and only if it was lost or
      the enrichment was interrupted; nothing only if there was nothing to claim. */
  ghost predicate Earned(found: Db, graph: bool, pass: Pass, turn: Turn) {
    if turn.Nothing? then
      pass.ended || pass.claimFails
      || forall h | h in found.jobs && h !in pass.locked :: !Due(found.jobs[h], pass.claimAt)
    else
      && !pass.ended && !pass.claimFails
      && turn.hash in found.jobs && turn.hash !in pass.locked
      && Due(found.jobs[turn.hash], pass.claimAt)
      && (turn.ClaimOnly? <==> pass.markLost || Interrupted(found, graph, pass, turn.hash))
      && (!turn.ClaimOnly? ==> (turn.ClaimDone? <==> Succeeded(found, graph, pass, turn.hash)))
  }

  /** The worker goes on: it was woken after finding nothing, or was not interrupted. */
  ghost predicate GoesOn(found: Db, graph: bool, pass: Pass, turn: Turn) {
    if turn.Nothing? then !pass.ended && pass.woken else !Interrupted(found, graph, pass, turn.hash)
  }

  ghost predicate Worked(db: Db, graph: bool, pass: Pass, turn: Turn, after: Db) {
    Earned(pass.before(db), graph, pass, turn) && after == AfterTurn(db, pass, turn)
  }

  /** Claim, enrich and mark. */
  method Take(pg: Postgres, graph: bool, circular: bool, pass: Pass) returns (turn: Turn, stopped: bool)
    requires JobsHaveTxs(pg.State()) && KeepsKeys(pass.between) && !pass.ended && !pass.claimFails
    modifies pg
    ensures Earned(old(pg.State()), graph, pass, turn) && JobsHaveTxs(pg.State())
    ensures pg.State() == AfterTurn(old(pg.State()), pass.(before := db => db), turn)
    ensures stopped <==> !turn.Nothing? && Interrupted(old(pg.State()), graph, pass, turn.hash)
  {
    var claimed := pg.ClaimEnrichmentJob(pass.locked, pass.claimAt);
    if claimed.None? { return Nothing, false; }
    var h := claimed.value;
    var errs, effects := Enrich(Claimed(h, pg.txs[h]), graph, circular, pass.services);
    pg.OthersCommit(pass.between);
    if errs != [] && pass.endedMeanwhile { return ClaimOnly(h), true; }
    if pass.markLost { return ClaimOnly(h), false; }
    if errs != [] {
      pg.MarkEnrichmentFailed(h, pass.markAt);
      return ClaimFailed(h), false;
    }
    pg.MarkEnrichmentDone(h, pass.markAt);
    return ClaimDone(h), false;
  }

  /** One pass; goOn is false when the worker stops. */
  method WorkOnce(pg: Postgres, graph: bool, circular: bool, pass: Pass) returns (goOn: bool, turn: Turn)
    requires JobsHaveTxs(pg.State()) && Lawful(pass)
    modifies pg
    ensures Worked(old(pg.State()), graph, pass, turn, pg.State()) && JobsHaveTxs(pg.State())
    ensures goOn <==> GoesOn(pass.before(old(pg.State())), graph, pass, turn)
  {
    pg.OthersCommit(pass.before);
    if pass.ended { return false, Nothing; }
    if pass.claimFails { return pass.woken, Nothing; }
    var stopped;
    turn, stopped := Take(pg, graph, circular, pass);
    goOn := if turn.Nothing? then pass.woken else !stopped;
  }

  ghost predicate WorkedAt(states: seq<Db>, graph: bool, passes: seq<Pass>, turns: seq<Turn>, k: nat)
    requires k < |turns| <= |passes| && |states| == |turns| + 1
  {
    Worked(states[k], graph, passes[k], turns[k], states[k + 1])
  }

  ghost predicate GoesOnAfter(states: seq<Db>, graph: bool, passes: seq<Pass>, turns: seq<Turn>, k: nat)
    requires k < |turns| <= |passes| && |states| == |turns| + 1
  {
    GoesOn(passes[k].before(states[k]), graph, passes[k], turns[k])
  }

  /** The history of the tables, turn by turn: the worker goes on after every turn but the last. */
  ghost predicate Trace(states: seq<Db>, graph: bool, passes: seq<Pass>, turns: seq<Turn>) {
    && |turns| <= |passes| && |states| == |turns| + 1
    && (forall k | 0 <= k < |turns| :: WorkedAt(states, graph, passes, turns, k))
    && (forall k | 0 <= k < |turns| - 1 :: GoesOnAfter(states, graph, passes, turns, k))
  }

  lemma TraceNext(states: seq<Db>, graph: bool, passes: seq<Pass>, turns: seq<Turn>, turn: Turn, after: Db)
    requires Trace(states, graph, passes, turns) && |turns| < |passes|
    requires turns != [] ==> GoesOnAfter(states, graph, passes, turns, |turns| - 1)
    requires Worked(states[|turns|], graph, passes[|turns|], turn, after)
    ensures Trace(states + [after], graph, passes, turns + [turn])
    ensures GoesOnAfter(states + [after], graph, passes, turns + [turn], |turns|) <==>
      GoesOn(passes[|turns|].before(states[|turns|]), graph, passes[|turns|], turn)
  {
    var more, longer := states + [after], turns + [turn];
    forall k | 0 <= k < |longer| ensures WorkedAt(more, graph, passes, longer, k) {
      if k < |turns| { assert WorkedAt(states, graph, passes, turns, k); }
    }
    forall k | 0 <= k < |longer| - 1 ensures GoesOnAfter(more, graph, passes, longer, k) {
      assert GoesOnAfter(states, graph, passes, turns, k);
    }
  }

  /** The worker: pass after pass, until it stops. */
  method EnrichmentWorker(pg: Postgres, graph: bool, circular: bool, passes: seq<Pass>)
    returns (turns: seq<Turn>, ghost states: seq<Db>)
    requires JobsHaveTxs(pg.State()) && forall k | 0 <= k < |passes| :: Lawful(passes[k])
    modifies pg
    ensures Trace(states, graph, passes, turns)
    ensures states[0] == old(pg.State()) && states[|turns|] == pg.State()
    ensures |turns| < |passes| ==> turns != [] && !GoesOnAfter(states, graph, passes, turns, |turns| - 1)
  {
    turns, states := [], [pg.State()];
    for n := 0 to |passes|
      invariant |turns| == n && Trace(states, graph, passes, turns)
      invariant states[0] == old(pg.State()) && states[n] == pg.State() && JobsHaveTxs(pg.State())
      invariant n > 0 ==> GoesOnAfter(states, graph, passes, turns, n - 1)
    {
      var goOn, turn := WorkOnce(pg, graph, circular, passes[n]);
      TraceNext(states, graph, passes, turns, turn, pg.State());
      turns, states := turns + [turn], states + [pg.State()];
      if !goOn { return; }
    }
  }
}
