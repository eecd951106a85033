/** The outbox and the graph database as one system: what a finished job means for the graph. */
module Delivery {
  import opened Prelude
  import opened Schema
  import opened Ledger
  import opened Outbox
  import P = Projection
  import Rollup

  /** The queue system, and every graph call made so far by anybody, in order. */
  datatype World = World(s: System, calls: seq<P.Call>)

  datatype Move = Queue(a: Action) | Call(call: P.Call)

  function GraphOf(w: World): P.Graph { P.Run(P.EMPTY, w.calls) }

  function Recipient(row: TxRow): Address { if row.to.Some? then row.to.value else "" }

  /** The transaction was saved as its row has it. */
  predicate EdgeSaved(calls: seq<P.Call>, h: Hash, row: TxRow) {
    P.SaveTransaction(
      P.Tx(h, row.from, Recipient(row), row.payload.value, row.payload.nonce, row.timestamp)) in calls
  }

  predicate SameTransfer(t: P.Transfer, k: TransferKey, row: TransferRow) {
    t.txHash == k.txHash && t.logIndex == k.logIndex && t.token == row.token
    && t.from == row.from && t.to == row.to && t.amount == row.amount
  }

  ghost predicate TransferSaved(calls: seq<P.Call>, k: TransferKey, row: TransferRow) {
    exists c, t | c in calls && c.SaveTokenTransfers? && t in c.transfers :: SameTransfer(t, k, row)
  }

  /** The enrichment of h, having read these rows, made all its graph calls. */
  ghost predicate Projected(w: World, h: Hash, rows: Rows) {
    && h in w.s.db.txs
    && (Recipient(w.s.db.txs[h]) != "" ==> EdgeSaved(w.calls, h, w.s.db.txs[h]))
    && forall k | k in rows :: TransferSaved(w.calls, k, rows[k])
  }

  /** An enrichment succeeds only once its graph calls have; other calls may happen at any time. */
  ghost predicate CanMove(w: World, m: Move) {
    match m
    case Call(_) => true
    case Queue(a) =>
      && Possible(w.s, a)
      && (a.Finish? && a.ok ==> Projected(w, w.s.workers[a.worker].hash, w.s.workers[a.worker].rows))
  }

  function Moved(w: World, m: Move): World
    requires m.Queue? ==> Possible(w.s, m.a)
  {
    match m
    case Call(c) => w.(calls := w.calls + [c])
    case Queue(a) => w.(s := Next(w.s, a))
  }

  ghost predicate IsRun(worlds: seq<World>, moves: seq<Move>) {
    && |worlds| == |moves| + 1
    && Initial(worlds[0].s) && worlds[0].calls == []
    && forall k | 0 <= k < |moves| :: CanMove(worlds[k], moves[k]) && worlds[k + 1] == Moved(worlds[k], moves[k])
  }

  /** Every success was projected, whatever happened since. */
  ghost predicate AllProjected(w: World) {
    forall x | x in w.s.successes :: Projected(w, x.hash, x.rows)
  }

  lemma CallKeeps(w: World, c: P.Call, h: Hash, rows: Rows)
    requires Projected(w, h, rows)
    ensures Projected(Moved(w, Call(c)), h, rows)
  {
    assert forall d | d in w.calls :: d in w.calls + [c];
  }

  /** The same transaction, whatever became of it. */
  predicate SameTx(a: TxRow, b: TxRow) {
    a.from == b.from && a.to == b.to && a.payload == b.payload && a.timestamp == b.timestamp
  }

  /** Nobody changes the parties, amounts or time of a stored transaction. */
  ghost predicate SameParties(before: Db, after: Db) {
    forall h | h in before.txs :: h in after.txs && SameTx(after.txs[h], before.txs[h])
  }

  lemma StepKeepsParties(db: Db, op: Op)
    ensures SameParties(db, Step(db, op))
  {
    Rollup.WritersOnlyAdd(db, op);
  }

  lemma NextKeepsParties(s: System, a: Action)
    requires Possible(s, a)
    ensures SameParties(s.db, Next(s, a).db)
  {
    match a
    case Write(op) => StepKeepsParties(s.db, op);
    case ClaimBy(_, h, now) => StepKeepsParties(s.db, Claim(h, now));
    case Mark(w, now, _) =>
      StepKeepsParties(s.db, Complete(s.workers[w].hash, now));
      StepKeepsParties(s.db, Fail(s.workers[w].hash, now));
    case Read(_) =>
    case Finish(_, _) =>
    case Crash(_) =>
  }

  lemma PartiesKeepProjected(w: World, after: World, h: Hash, rows: Rows)
    requires Projected(w, h, rows) && SameParties(w.s.db, after.s.db) && after.calls == w.calls
    ensures Projected(after, h, rows)
  {
    assert SameTx(after.s.db.txs[h], w.s.db.txs[h]);
  }

  lemma SuccessesOf(s: System, a: Action)
    requires Possible(s, a)
    ensures Next(s, a).successes == if a.Finish? && a.ok
      then s.successes + {Success(s.workers[a.worker].hash, s.workers[a.worker].at, s.workers[a.worker].rows)}
      else s.successes
  {
  }

  lemma MoveKeepsProjected(w: World, m: Move)
    requires AllProjected(w) && CanMove(w, m)
    ensures AllProjected(Moved(w, m))
  {
    match m
    case Call(c) =>
      forall x | x in w.s.successes ensures Projected(Moved(w, m), x.hash, x.rows) { CallKeeps(w, c, x.hash, x.rows); }
    case Queue(a) =>
      NextKeepsParties(w.s, a);
      SuccessesOf(w.s, a);
      forall x | x in Moved(w, m).s.successes ensures Projected(Moved(w, m), x.hash, x.rows) {
        PartiesKeepProjected(w, Moved(w, m), x.hash, x.rows);
      }
  }

  /** No mark of the run loses a re-queue. */
  ghost predicate NoneLost(worlds: seq<World>, moves: seq<Move>)
    requires |worlds| > |moves|
  {
    forall k | 0 <= k < |moves| && moves[k].Queue? :: !LosesRequeue(worlds[k].s, moves[k].a)
  }

  lemma {:induction false} RunKeeps(worlds: seq<World>, moves: seq<Move>, k: nat)
    requires IsRun(worlds, moves) && NoneLost(worlds, moves) && k <= |moves|
    ensures Inv(worlds[k].s) && AllProjected(worlds[k])
  {
    if k == 0 {
      InitialInv(worlds[0].s);
    } else {
      RunKeeps(worlds, moves, k - 1);
      MoveKeepsProjected(worlds[k - 1], moves[k - 1]);
      if moves[k - 1].Queue? { ActionExact(worlds[k - 1].s, moves[k - 1].a); }
    }
  }

  // ----- What the graph then holds -----

  lemma EdgeIsThere(calls: seq<P.Call>, h: Hash, row: TxRow)
    requires EdgeSaved(calls, h, row) && Recipient(row) != ""
    ensures P.EdgeId(row.from, Recipient(row), P.Sent(h)) in P.Run(P.EMPTY, calls).edges
  {
    P.EdgesOfCalls(calls, P.EdgeId(row.from, Recipient(row), P.Sent(h)));
  }

  /** Neither a mint nor a burn. */
  predicate Flows(row: TransferRow) {
    && row.from != "" && row.from != "0x0000000000000000000000000000000000000000"
    && row.to != "" && row.to != "0x0000000000000000000000000000000000000000"
  }

  lemma TransferIsThere(calls: seq<P.Call>, k: TransferKey, row: TransferRow)
    requires TransferSaved(calls, k, row) && Flows(row)
    ensures P.EdgeId(row.from, row.to, P.Transferred(k.txHash, k.logIndex)) in P.Run(P.EMPTY, calls).edges
  {
    P.EdgesOfCalls(calls, P.EdgeId(row.from, row.to, P.Transferred(k.txHash, k.logIndex)));
  }

  function SentEdge(h: Hash, row: TxRow): P.EdgeId { P.EdgeId(row.from, Recipient(row), P.Sent(h)) }

  function TransferredEdge(k: TransferKey, row: TransferRow): P.EdgeId {
    P.EdgeId(row.from, row.to, P.Transferred(k.txHash, k.logIndex))
  }

  /** The graph holds the transaction's edge, if it has a recipient, and the edge of each of its stored
      transfers that is neither a mint nor a burn. */
  ghost predicate InGraph(w: World, h: Hash) {
    && (h in w.s.db.txs && Recipient(w.s.db.txs[h]) != "" ==> SentEdge(h, w.s.db.txs[h]) in GraphOf(w).edges)
    && forall k | k in w.s.db.transfers && k.txHash == h && Flows(w.s.db.transfers[k]) ::
         TransferredEdge(k, w.s.db.transfers[k]) in GraphOf(w).edges
  }

  lemma DeliveredIsInGraph(w: World, h: Hash)
    requires AllProjected(w) && Delivered(w.s, h)
    ensures InGraph(w, h)
  {
    var x :| x in w.s.successes && x.hash == h && SubRows(RowsOf(w.s.db, h), x.rows);
    if Recipient(w.s.db.txs[h]) != "" { EdgeIsThere(w.calls, h, w.s.db.txs[h]); }
    forall k | k in w.s.db.transfers && k.txHash == h && Flows(w.s.db.transfers[k])
      ensures TransferredEdge(k, w.s.db.transfers[k]) in GraphOf(w).edges
    {
      assert k in RowsOf(w.s.db, h);
      TransferIsThere(w.calls, k, w.s.db.transfers[k]);
    }
  }

  /** In every run of writers, workers and graph calls in which no mark loses a re-queue, the graph holds
      all there is to hold of every transaction whose job is done or was pruned. */
  lemma FinishedIsInGraph(worlds: seq<World>, moves: seq<Move>, k: nat, h: Hash)
    requires IsRun(worlds, moves) && NoneLost(worlds, moves) && k <= |moves|
    requires Finished(worlds[k].s, h)
    ensures InGraph(worlds[k], h)
  {
    RunKeeps(worlds, moves, k);
    DeliveredIsInGraph(worlds[k], h);
  }
}
