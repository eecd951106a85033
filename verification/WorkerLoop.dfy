/** The enrichment worker inside the outbox: its calls are the graph calls a success stands for, and its
    turns, among whatever the others do, are actions of the outbox. */
module WorkerLoop {
  import opened Prelude
  import opened Schema
  import opened Ledger
  import opened Outbox
  import opened Delivery
  import E = Enrichment
  import P = Projection

  // ----- What enrich does to the graph -----

  function GraphTx(tx: Tx): P.Tx {
    P.Tx(tx.hash, tx.from, tx.to, tx.payload.value, tx.payload.nonce, tx.timestamp)
  }

  function GraphTransfer(st: E.Stored): P.Transfer {
    var tt := st.transfer;
    P.Transfer(tt.txHash, tt.logIndex, tt.token, tt.from, tt.to, tt.amount, st.minedAt)
  }

  function GraphTransfers(list: seq<E.Stored>): seq<P.Transfer> {
    seq(|list|, i requires 0 <= i < |list| => GraphTransfer(list[i]))
  }

  /** The graph call of one effect, if it succeeded. */
  function CallOf(e: E.Effect, tx: Tx, services: E.Services): seq<P.Call> {
    match e
    case SaveEdge(_) => if services.edgeSaved then [P.SaveTransaction(GraphTx(tx))] else []
    case SaveTransfers(list) => if services.transfersSaved then [P.SaveTokenTransfers(GraphTransfers(list))] else []
    case _ => []
  }

  function CallsOf(effects: seq<E.Effect>, tx: Tx, services: E.Services): seq<P.Call> {
    if effects == [] then [] else CallOf(effects[0], tx, services) + CallsOf(effects[1..], tx, services)
  }

  lemma {:induction false} InCalls(effects: seq<E.Effect>, tx: Tx, services: E.Services, e: E.Effect, c: P.Call)
    requires e in effects && c in CallOf(e, tx, services)
    ensures c in CallsOf(effects, tx, services)
  {
    if e != effects[0] { InCalls(effects[1..], tx, services, e, c); }
  }

  predicate ReadAs(st: E.Stored, k: TransferKey, row: TransferRow) {
    SameTransfer(GraphTransfer(st), k, row)
  }

  /** The read returns stored transfers of the hash, and all of them unless it failed midway. */
  ghost predicate ReadOf(services: E.Services, rows: Rows) {
    && (forall st | st in services.transfers :: exists k | k in rows :: ReadAs(st, k, rows[k]))
    && (services.transfersRead ==>
          forall k | k in rows :: exists st | st in services.transfers :: ReadAs(st, k, rows[k]))
  }

  lemma GraphTransferIn(list: seq<E.Stored>, st: E.Stored)
    requires st in list
    ensures GraphTransfer(st) in GraphTransfers(list)
  {
    var i :| 0 <= i < |list| && list[i] == st;
    assert GraphTransfers(list)[i] == GraphTransfer(st);
  }

  lemma SavedTransfer(calls: seq<P.Call>, list: seq<E.Stored>, st: E.Stored, k: TransferKey, row: TransferRow)
    requires P.SaveTokenTransfers(GraphTransfers(list)) in calls && st in list && ReadAs(st, k, row)
    ensures TransferSaved(calls, k, row)
  {
    GraphTransferIn(list, st);
    var c, t := P.SaveTokenTransfers(GraphTransfers(list)), GraphTransfer(st);
    assert c in calls && t in c.transfers && SameTransfer(t, k, row);
  }

  /** The effects of one enrichment with a graph database. */
  ghost function Effects(tx: Tx, circular: bool, services: E.Services): seq<E.Effect> {
    E.EffectsOf(tx, true, circular, services)
  }

  lemma EdgeCalled(tx: Tx, circular: bool, services: E.Services)
    requires tx.to != "" && services.edgeSaved
    ensures P.SaveTransaction(GraphTx(tx)) in CallsOf(Effects(tx, circular, services), tx, services)
  {
    assert E.SaveEdge(tx.hash) in E.Writes(tx, true, services);
    InCalls(Effects(tx, circular, services), tx, services, E.SaveEdge(tx.hash), P.SaveTransaction(GraphTx(tx)));
  }

  lemma TransfersCalled(tx: Tx, circular: bool, services: E.Services)
    requires services.transfers != [] && services.transfersSaved
    ensures P.SaveTokenTransfers(GraphTransfers(services.transfers)) in
      CallsOf(Effects(tx, circular, services), tx, services)
  {
    var e := E.SaveTransfers(services.transfers);
    assert e in E.Writes(tx, true, services);
    InCalls(Effects(tx, circular, services), tx, services, e, P.SaveTokenTransfers(GraphTransfers(services.transfers)));
  }

  lemma AllTransfersSaved(calls: seq<P.Call>, services: E.Services, rows: Rows)
    requires ReadOf(services, rows) && services.transfersRead
    requires services.transfers != [] ==> P.SaveTokenTransfers(GraphTransfers(services.transfers)) in calls
    ensures forall k | k in rows :: TransferSaved(calls, k, rows[k])
  {
    forall k | k in rows ensures TransferSaved(calls, k, rows[k]) {
      var st :| st in services.transfers && ReadAs(st, k, rows[k]);
      SavedTransfer(calls, services.transfers, st, k, rows[k]);
    }
  }

  /** The row of the claim and the row now are of the same transaction. */
  lemma EdgeIsSaved(calls: seq<P.Call>, h: Hash, claimed: TxRow, row: TxRow)
    requires P.SaveTransaction(GraphTx(E.Claimed(h, claimed))) in calls && SameTx(row, claimed)
    ensures EdgeSaved(calls, h, row)
  {
  }

  /** The graph calls of a transaction and of its transfers were made. */
  predicate AllCalled(calls: seq<P.Call>, tx: Tx, services: E.Services) {
    && (tx.to != "" ==> P.SaveTransaction(GraphTx(tx)) in calls)
    && (services.transfers != [] ==> P.SaveTokenTransfers(GraphTransfers(services.transfers)) in calls)
  }

  lemma SuccessCalls(calls: seq<P.Call>, tx: Tx, circular: bool, services: E.Services)
    requires E.AllSucceeded(tx, true, services)
    ensures AllCalled(calls + CallsOf(Effects(tx, circular, services), tx, services), tx, services)
  {
    if tx.to != "" { EdgeCalled(tx, circular, services); }
    if services.transfers != [] { TransfersCalled(tx, circular, services); }
  }

  lemma CalledIsProjected(w: World, h: Hash, claimed: TxRow, rows: Rows, services: E.Services)
    requires h in w.s.db.txs && ReadOf(services, rows) && services.transfersRead
    requires SameTx(w.s.db.txs[h], claimed)
    requires AllCalled(w.calls, E.Claimed(h, claimed), services)
    ensures Projected(w, h, rows)
  {
    if Recipient(w.s.db.txs[h]) != "" { EdgeIsSaved(w.calls, h, claimed, w.s.db.txs[h]); }
    AllTransfersSaved(w.calls, services, rows);
  }

  /** An enrichment without an error has made all its graph calls. */
  lemma EnrichProjects(w: World, h: Hash, rows: Rows, circular: bool, services: E.Services)
    requires h in w.s.db.txs && ReadOf(services, rows)
    requires E.AllSucceeded(E.Claimed(h, w.s.db.txs[h]), true, services)
    ensures var tx := E.Claimed(h, w.s.db.txs[h]);
      Projected(w.(calls := w.calls + CallsOf(Effects(tx, circular, services), tx, services)), h, rows)
  {
    var tx := E.Claimed(h, w.s.db.txs[h]);
    SuccessCalls(w.calls, tx, circular, services);
    var called := w.(calls := w.calls + CallsOf(Effects(tx, circular, services), tx, services));
    CalledIsProjected(called, h, w.s.db.txs[h], rows, services);
  }

  /** enrich, with what its calls leave in the graph. */
  method EnrichInGraph(ghost w: World, tx: Tx, ghost rows: Rows, circular: bool, services: E.Services)
    returns (errs: seq<E.Fault>, effects: seq<E.Effect>)
    requires tx.hash in w.s.db.txs && tx == E.Claimed(tx.hash, w.s.db.txs[tx.hash]) && ReadOf(services, rows)
    ensures effects == Effects(tx, circular, services)
    ensures errs == [] ==>
      && Projected(w.(calls := w.calls + CallsOf(effects, tx, services)), tx.hash, rows)
      && forall st | st in services.transfers :: SavedAsRead(CallsOf(effects, tx, services), st)
  {
    errs, effects := E.Enrich(tx, true, circular, services);
    if errs == [] {
      EnrichProjects(w, tx.hash, rows, circular, services);
      AllSavedAsRead(tx, circular, services);
    }
  }

  /** The transfer was saved as it was read, with the time of its block. */
  ghost predicate SavedAsRead(calls: seq<P.Call>, st: E.Stored) {
    exists c, t | c in calls && c.SaveTokenTransfers? && t in c.transfers ::
      && t.txHash == st.transfer.txHash && t.logIndex == st.transfer.logIndex && t.token == st.transfer.token
      && t.from == st.transfer.from && t.to == st.transfer.to && t.amount == st.transfer.amount
      && t.minedAt == st.minedAt
  }

  lemma AllSavedAsRead(tx: Tx, circular: bool, services: E.Services)
    requires E.AllSucceeded(tx, true, services)
    ensures forall st | st in services.transfers ::
      SavedAsRead(CallsOf(Effects(tx, circular, services), tx, services), st)
  {
    if services.transfers != [] {
      TransfersCalled(tx, circular, services);
      forall st | st in services.transfers
        ensures SavedAsRead(CallsOf(Effects(tx, circular, services), tx, services), st)
      {
        GraphTransferIn(services.transfers, st);
      }
    }
  }

  // ----- Runs of moves -----

  ghost predicate CanRun(w: World, moves: seq<Move>)
    decreases |moves|
  {
    moves == [] || (CanMove(w, moves[0]) && CanRun(Moved(w, moves[0]), moves[1..]))
  }

  ghost function After(w: World, moves: seq<Move>): World
    decreases |moves|
  {
    if moves == [] || !CanMove(w, moves[0]) then w else After(Moved(w, moves[0]), moves[1..])
  }

  lemma {:induction false} RunConcat(w: World, a: seq<Move>, b: seq<Move>)
    requires CanRun(w, a) && CanRun(After(w, a), b)
    ensures CanRun(w, a + b) && After(w, a + b) == After(After(w, a), b)
    decreases |a|
  {
    if a == [] {
      assert a + b == b;
    } else {
      RunConcat(Moved(w, a[0]), a[1..], b);
      assert (a + b)[1..] == a[1..] + b;
    }
  }

  lemma RunOne(w: World, m: Move)
    requires CanMove(w, m)
    ensures CanRun(w, [m]) && After(w, [m]) == Moved(w, m)
  {
    assert [m][1..] == [];
  }

  ghost function Worlds(w: World, moves: seq<Move>): seq<World>
    decreases |moves|
  {
    if moves == [] || !CanMove(w, moves[0]) then [w] else [w] + Worlds(Moved(w, moves[0]), moves[1..])
  }

  lemma {:induction false} WorldsRun(w: World, moves: seq<Move>)
    requires CanRun(w, moves)
    ensures var worlds := Worlds(w, moves);
      && |worlds| == |moves| + 1 && worlds[0] == w && worlds[|moves|] == After(w, moves)
      && forall k | 0 <= k < |moves| :: CanMove(worlds[k], moves[k]) && worlds[k + 1] == Moved(worlds[k], moves[k])
    decreases |moves|
  {
    if moves != [] {
      var next := Moved(w, moves[0]);
      WorldsRun(next, moves[1..]);
      var worlds, later := Worlds(w, moves), Worlds(next, moves[1..]);
      forall k | 0 <= k < |moves|
        ensures CanMove(worlds[k], moves[k]) && worlds[k + 1] == Moved(worlds[k], moves[k])
      {
        if k > 0 { assert worlds[k] == later[k - 1] && moves[k] == moves[1..][k - 1]; }
      }
    }
  }

  /** What was called stays called. */
  lemma {:induction false} CallsStay(w: World, moves: seq<Move>, c: P.Call)
    requires CanRun(w, moves) && (c in w.calls || Call(c) in moves)
    ensures c in After(w, moves).calls
    decreases |moves|
  {
    if moves != [] {
      MovedCalls(w, moves[0]);
      CallsStay(Moved(w, moves[0]), moves[1..], c);
    }
  }

  lemma MovedCalls(w: World, m: Move)
    requires CanMove(w, m)
    ensures Moved(w, m).calls == if m.Queue? then w.calls else w.calls + [m.call]
  {
  }

  lemma {:induction false} PartiesStay(w: World, moves: seq<Move>)
    requires CanRun(w, moves)
    ensures SameParties(w.s.db, After(w, moves).s.db)
    decreases |moves|
  {
    if moves != [] {
      if moves[0].Queue? { NextKeepsParties(w.s, moves[0].a); }
      PartiesStay(Moved(w, moves[0]), moves[1..]);
      PartiesThrough(w.s.db, Moved(w, moves[0]).s.db, After(w, moves).s.db);
    }
  }

  lemma PartiesThrough(a: Db, b: Db, c: Db)
    requires SameParties(a, b) && SameParties(b, c)
    ensures SameParties(a, c)
  {
  }

  /** The calls are made in their order, others' moves among them. */
  ghost predicate Interleaves(moves: seq<Move>, calls: seq<P.Call>)
    decreases |moves|
  {
    if moves == [] then calls == []
    else (calls != [] && moves[0] == Call(calls[0]) && Interleaves(moves[1..], calls[1..]))
         || Interleaves(moves[1..], calls)
  }

  lemma {:induction false} CallIsMade(moves: seq<Move>, calls: seq<P.Call>, c: P.Call)
    requires Interleaves(moves, calls) && c in calls
    ensures Call(c) in moves
    decreases |moves|
  {
    if calls != [] && moves[0] == Call(calls[0]) && Interleaves(moves[1..], calls[1..]) {
      if c != calls[0] { CallIsMade(moves[1..], calls[1..], c); }
    } else {
      CallIsMade(moves[1..], calls, c);
    }
  }

  // ----- One turn of the worker -----

  /** The action is of worker v. */
  predicate IsOf(a: Action, v: nat) { !a.Write? && a.worker == v }

  /** Nobody but worker v itself acts for it. */
  ghost predicate ByOthers(moves: seq<Move>, v: nat) {
    forall m | m in moves :: m.Queue? ==> !IsOf(m.a, v)
  }

  lemma {:induction false} OthersLeave(w: World, moves: seq<Move>, v: nat)
    requires CanRun(w, moves) && ByOthers(moves, v) && v < |w.s.workers|
    ensures v < |After(w, moves).s.workers| && After(w, moves).s.workers[v] == w.s.workers[v]
    decreases |moves|
  {
    if moves != [] {
      assert moves[0] in moves && forall m | m in moves[1..] :: m in moves;
      OthersLeave(Moved(w, moves[0]), moves[1..], v);
    }
  }

  /** What the others do around and inside a turn, the worker's own calls among it: before its claim, until
      it reads the stored transfers, until its enrichment ends, and until its mark. */
  datatype Plan = Plan(before: seq<Move>, claimed: seq<Move>, read: seq<Move>, ended: seq<Move>)

  /** The calls that the enrichment makes. */
  ghost function Calls(found: Db, h: Hash, pass: E.Pass, circular: bool): seq<P.Call>
    requires h in found.txs
  {
    var tx := E.Claimed(h, found.txs[h]);
    CallsOf(Effects(tx, circular, pass.services), tx, pass.services)
  }

  function ClaimMove(v: nat, h: Hash, pass: E.Pass): Move { Queue(ClaimBy(v, h, pass.claimAt)) }

  ghost function FinishMove(found: Db, v: nat, h: Hash, pass: E.Pass): Move {
    Queue(Finish(v, E.Succeeded(found, true, pass, h)))
  }

  /** The world in which the worker reads, having claimed h. */
  ghost function Reading(found: World, v: nat, h: Hash, pass: E.Pass, plan: Plan): World {
    After(found, [ClaimMove(v, h, pass)] + plan.claimed)
  }

  /** The worker's part of the turn, from its claim to the outcome, others acting throughout. */
  ghost function Enriching(found: World, v: nat, h: Hash, pass: E.Pass, plan: Plan): seq<Move> {
    [ClaimMove(v, h, pass)] + plan.claimed + ([Queue(Read(v))] + plan.read + [FinishMove(found.s.db, v, h, pass)])
  }

  lemma ClaimRuns(w: World, v: nat, h: Hash, now: Time, others: seq<Move>) returns (after: World)
    requires v < |w.s.workers| && w.s.workers[v].Idle? && Enabled(w.s.db, Claim(h, now))
    requires CanRun(After(w, [Queue(ClaimBy(v, h, now))]), others) && ByOthers(others, v)
    ensures CanRun(w, [Queue(ClaimBy(v, h, now))] + others)
    ensures after == After(w, [Queue(ClaimBy(v, h, now))] + others)
    ensures v < |after.s.workers| && after.s.workers[v].Claimed? && after.s.workers[v].hash == h
    ensures SameParties(w.s.db, after.s.db)
  {
    var claim := Queue(ClaimBy(v, h, now));
    RunOne(w, claim);
    OthersLeave(Moved(w, claim), others, v);
    RunConcat(w, [claim], others);
    after := After(Moved(w, claim), others);
    NextKeepsParties(w.s, claim.a);
    PartiesStay(Moved(w, claim), others);
    PartiesThrough(w.s.db, Moved(w, claim).s.db, after.s.db);
  }

  lemma ReadRuns(w: World, v: nat, others: seq<Move>) returns (after: World)
    requires v < |w.s.workers| && w.s.workers[v].Claimed?
    requires CanRun(After(w, [Queue(Read(v))]), others) && ByOthers(others, v)
    ensures CanRun(w, [Queue(Read(v))] + others) && after == After(w, [Queue(Read(v))] + others)
    ensures v < |after.s.workers| && after.s.workers[v].HasRead?
    ensures after.s.workers[v].hash == w.s.workers[v].hash
    ensures after.s.workers[v].rows == RowsOf(w.s.db, w.s.workers[v].hash)
    ensures SameParties(w.s.db, after.s.db)
  {
    var read := Queue(Read(v));
    RunOne(w, read);
    OthersLeave(Moved(w, read), others, v);
    RunConcat(w, [read], others);
    after := After(Moved(w, read), others);
    PartiesStay(Moved(w, read), others);
  }

  lemma FinishRuns(w: World, v: nat, h: Hash, ok: bool) returns (after: World)
    requires v < |w.s.workers| && w.s.workers[v].HasRead? && w.s.workers[v].hash == h
    requires ok ==> Projected(w, h, w.s.workers[v].rows)
    ensures CanRun(w, [Queue(Finish(v, ok))]) && after == After(w, [Queue(Finish(v, ok))])
    ensures after.s.db == w.s.db && v < |after.s.workers|
    ensures if ok then after.s.workers[v].Succeeded? && after.s.workers[v].hash == h
            else after.s.workers[v].Erred? && after.s.workers[v].hash == h
  {
    RunOne(w, Queue(Finish(v, ok)));
    after := Moved(w, Queue(Finish(v, ok)));
  }

  /** A successful enrichment has made its calls by the time it ends. */
  lemma CallsMade(found: World, v: nat, h: Hash, pass: E.Pass, circular: bool, plan: Plan, read: World, called: World)
    requires h in found.s.db.txs && E.Succeeded(found.s.db, true, pass, h)
    requires Interleaves(plan.claimed + plan.read, Calls(found.s.db, h, pass, circular))
    requires CanRun(found, [ClaimMove(v, h, pass)] + plan.claimed) && read == Reading(found, v, h, pass, plan)
    requires CanRun(read, [Queue(Read(v))] + plan.read) && called == After(read, [Queue(Read(v))] + plan.read)
    ensures AllCalled(called.calls, E.Claimed(h, found.s.db.txs[h]), pass.services)
  {
    var calls := Calls(found.s.db, h, pass, circular);
    forall c | c in calls ensures c in called.calls {
      CallIsMade(plan.claimed + plan.read, calls, c);
      if Call(c) in plan.claimed { CallsStay(found, [ClaimMove(v, h, pass)] + plan.claimed, c); }
      CallsStay(read, [Queue(Read(v))] + plan.read, c);
    }
    SuccessCalls([], E.Claimed(h, found.s.db.txs[h]), circular, pass.services);
    assert [] + calls == calls;
  }

  /** Others may act until the read, and until the outcome, and the worker's calls are among their moves. */
  ghost predicate Interleaved(found: World, v: nat, h: Hash, pass: E.Pass, circular: bool, plan: Plan)
    requires h in found.s.db.txs
  {
    && CanRun(After(found, [ClaimMove(v, h, pass)]), plan.claimed) && ByOthers(plan.claimed, v)
    && var read := Reading(found, v, h, pass, plan);
    && ReadOf(pass.services, RowsOf(read.s.db, h))
    && CanRun(After(read, [Queue(Read(v))]), plan.read) && ByOthers(plan.read, v)
    && Interleaves(plan.claimed + plan.read, Calls(found.s.db, h, pass, circular))
  }

  lemma EnrichingRuns(found: World, v: nat, h: Hash, pass: E.Pass, circular: bool, plan: Plan)
    requires v < |found.s.workers| && found.s.workers[v].Idle? && Enabled(found.s.db, Claim(h, pass.claimAt))
    requires h in found.s.db.txs && Interleaved(found, v, h, pass, circular, plan)
    ensures CanRun(found, Enriching(found, v, h, pass, plan))
    ensures HoldsOutcome(found.s.db, After(found, Enriching(found, v, h, pass, plan)), v, h, pass)
  {
    var start, rest := [ClaimMove(v, h, pass)] + plan.claimed, [Queue(Read(v))] + plan.read;
    var ok := E.Succeeded(found.s.db, true, pass, h);
    var read := ClaimRuns(found, v, h, pass.claimAt, plan.claimed);
    var called := ReadRuns(read, v, plan.read);
    if ok {
      CallsMade(found, v, h, pass, circular, plan, read, called);
      PartiesThrough(found.s.db, read.s.db, called.s.db);
      CalledIsProjected(called, h, found.s.db.txs[h], RowsOf(read.s.db, h), pass.services);
    }
    var after := FinishRuns(called, v, h, ok);
    RunConcat(read, rest, [Queue(Finish(v, ok))]);
    RunConcat(found, start, rest + [Queue(Finish(v, ok))]);
  }

  /** The worker holds the outcome of its enrichment. */
  ghost predicate HoldsOutcome(found: Db, w: World, v: nat, h: Hash, pass: E.Pass) {
    v < |w.s.workers| && IsOutcome(w.s.workers[v], h, E.Succeeded(found, true, pass, h))
  }

  predicate IsOutcome(p: Phase, h: Hash, ok: bool) {
    if ok then p.Succeeded? && p.hash == h else p.Erred? && p.hash == h
  }

  /** The mark, or the end of the worker. */
  ghost function Ending(found: Db, v: nat, pass: E.Pass, turn: E.Turn): Move
    requires !turn.Nothing?
  {
    if E.Interrupted(found, true, pass, turn.hash) then Queue(Crash(v))
    else Queue(Mark(v, pass.markAt, turn.ClaimOnly?))
  }

  lemma EndingRuns(found: Db, mid: World, v: nat, pass: E.Pass, turn: E.Turn)
    requires E.Earned(found, true, pass, turn) && !turn.Nothing? && HoldsOutcome(found, mid, v, turn.hash, pass)
    ensures CanMove(mid, Ending(found, v, pass, turn))
    ensures var after := Moved(mid, Ending(found, v, pass, turn));
      && v < |after.s.workers| && after.s.workers[v].Idle?
      && after.s.db == match turn
           case ClaimOnly(h) => mid.s.db
           case ClaimDone(h) => Step(mid.s.db, Complete(h, pass.markAt))
           case ClaimFailed(h) => Step(mid.s.db, Fail(h, pass.markAt))
  {
  }

  /** What the others do does to the tables what the pass says, and the read returns what is stored then. */
  ghost predicate Realises(w: World, v: nat, pass: E.Pass, turn: E.Turn, circular: bool, plan: Plan) {
    && CanRun(w, plan.before) && ByOthers(plan.before, v)
    && var found := After(w, plan.before);
    && found.s.db == pass.before(w.s.db)
    && (!turn.Nothing? && turn.hash in found.s.db.txs ==>
          && Interleaved(found, v, turn.hash, pass, circular, plan)
          && var mid := After(found, Enriching(found, v, turn.hash, pass, plan));
          && CanRun(mid, plan.ended) && ByOthers(plan.ended, v)
          && After(mid, plan.ended).s.db == pass.between(Step(found.s.db, Claim(turn.hash, pass.claimAt))))
  }

  ghost function TurnMoves(w: World, v: nat, pass: E.Pass, turn: E.Turn, plan: Plan): seq<Move> {
    var found := After(w, plan.before);
    if turn.Nothing? || turn.hash !in found.s.db.txs then plan.before
    else plan.before + ClaimedMoves(found, v, pass, turn, plan)
  }

  /** From the claim to the mark. */
  ghost function ClaimedMoves(found: World, v: nat, pass: E.Pass, turn: E.Turn, plan: Plan): seq<Move>
    requires !turn.Nothing?
  {
    Enriching(found, v, turn.hash, pass, plan) + plan.ended + [Ending(found.s.db, v, pass, turn)]
  }

  lemma ClaimedRuns(found: World, v: nat, pass: E.Pass, turn: E.Turn, circular: bool, plan: Plan)
    requires v < |found.s.workers| && found.s.workers[v].Idle?
    requires E.Earned(found.s.db, true, pass, turn) && !turn.Nothing? && turn.hash in found.s.db.txs
    requires Interleaved(found, v, turn.hash, pass, circular, plan)
    requires var mid := After(found, Enriching(found, v, turn.hash, pass, plan));
      && CanRun(mid, plan.ended) && ByOthers(plan.ended, v)
      && After(mid, plan.ended).s.db == pass.between(Step(found.s.db, Claim(turn.hash, pass.claimAt)))
    ensures var moves := ClaimedMoves(found, v, pass, turn, plan);
      && CanRun(found, moves)
      && After(found, moves).s.db == E.AfterTurn(found.s.db, pass.(before := db => db), turn)
      && v < |After(found, moves).s.workers| && After(found, moves).s.workers[v].Idle?
  {
    var enriching := Enriching(found, v, turn.hash, pass, plan);
    EnrichingRuns(found, v, turn.hash, pass, circular, plan);
    var mid := After(found, enriching);
    OthersLeave(mid, plan.ended, v);
    RunConcat(found, enriching, plan.ended);
    var last := After(mid, plan.ended);
    EndingRuns(found.s.db, last, v, pass, turn);
    RunOne(last, Ending(found.s.db, v, pass, turn));
    RunConcat(found, enriching + plan.ended, [Ending(found.s.db, v, pass, turn)]);
  }

  /** A turn of the worker, others acting around it and at any moment inside it, is a run of the outbox. */
  lemma TurnIsRun(w: World, v: nat, pass: E.Pass, turn: E.Turn, circular: bool, plan: Plan)
    requires v < |w.s.workers| && w.s.workers[v].Idle? && E.JobsHaveTxs(pass.before(w.s.db))
    requires E.Earned(pass.before(w.s.db), true, pass, turn) && Realises(w, v, pass, turn, circular, plan)
    ensures var moves := TurnMoves(w, v, pass, turn, plan);
      && CanRun(w, moves) && After(w, moves).s.db == E.AfterTurn(w.s.db, pass, turn)
      && v < |After(w, moves).s.workers| && After(w, moves).s.workers[v].Idle?
  {
    var found := After(w, plan.before);
    OthersLeave(w, plan.before, v);
    if !turn.Nothing? {
      ClaimedRuns(found, v, pass, turn, circular, plan);
      RunConcat(w, plan.before, ClaimedMoves(found, v, pass, turn, plan));
    }
  }

  // ----- The whole loop -----

  /** The plans realise the passes one after another, from world w on. */
  ghost predicate AllRealised(
    w: World, v: nat, passes: seq<E.Pass>, turns: seq<E.Turn>, circular: bool, plans: seq<Plan>)
    requires |turns| <= |passes| && |turns| <= |plans|
    decreases |turns|
  {
    turns == [] ||
    (&& Realises(w, v, passes[0], turns[0], circular, plans[0])
     && E.JobsHaveTxs(passes[0].before(w.s.db))
     && AllRealised(After(w, TurnMoves(w, v, passes[0], turns[0], plans[0])), v,
                    passes[1..], turns[1..], circular, plans[1..]))
  }

  ghost function LoopMoves(
    w: World, v: nat, passes: seq<E.Pass>, turns: seq<E.Turn>, plans: seq<Plan>): seq<Move>
    requires |turns| <= |passes| && |turns| <= |plans|
    decreases |turns|
  {
    if turns == [] then []
    else
      var moves := TurnMoves(w, v, passes[0], turns[0], plans[0]);
      moves + LoopMoves(After(w, moves), v, passes[1..], turns[1..], plans[1..])
  }

  lemma TraceTail(states: seq<Db>, passes: seq<E.Pass>, turns: seq<E.Turn>)
    requires E.Trace(states, true, passes, turns) && turns != []
    ensures E.Worked(states[0], true, passes[0], turns[0], states[1])
    ensures E.Trace(states[1..], true, passes[1..], turns[1..])
  {
    assert E.WorkedAt(states, true, passes, turns, 0);
    forall k | 0 <= k < |turns| - 1 ensures E.WorkedAt(states[1..], true, passes[1..], turns[1..], k) {
      assert E.WorkedAt(states, true, passes, turns, k + 1);
    }
    forall k | 0 <= k < |turns| - 2 ensures E.GoesOnAfter(states[1..], true, passes[1..], turns[1..], k) {
      assert E.GoesOnAfter(states, true, passes, turns, k + 1);
    }
  }

  /** Every history of the worker's loop is a run of the outbox that leaves the same tables. */
  lemma {:induction false} LoopIsRun(
    w: World, v: nat, states: seq<Db>, passes: seq<E.Pass>, turns: seq<E.Turn>, circular: bool, plans: seq<Plan>)
    requires E.Trace(states, true, passes, turns) && states[0] == w.s.db && |turns| <= |plans|
    requires v < |w.s.workers| && w.s.workers[v].Idle? && AllRealised(w, v, passes, turns, circular, plans)
    ensures var moves := LoopMoves(w, v, passes, turns, plans);
      CanRun(w, moves) && After(w, moves).s.db == states[|turns|]
    decreases |turns|
  {
    if turns != [] {
      TraceTail(states, passes, turns);
      var moves := TurnMoves(w, v, passes[0], turns[0], plans[0]);
      TurnIsRun(w, v, passes[0], turns[0], circular, plans[0]);
      var next := After(w, moves);
      LoopIsRun(next, v, states[1..], passes[1..], turns[1..], circular, plans[1..]);
      RunConcat(w, moves, LoopMoves(next, v, passes[1..], turns[1..], plans[1..]));
    }
  }

  /** The worker's loop delivers: start it anywhere in a run from empty tables, among any other workers and
      writers. Unless a mark loses a re-queue, the graph ends up with all there is to hold of every
      transaction whose job is done or was pruned. */
  lemma LoopDelivers(
    start: World, prefix: seq<Move>, v: nat, states: seq<Db>, passes: seq<E.Pass>, turns: seq<E.Turn>,
    circular: bool, plans: seq<Plan>)
    returns (worlds: seq<World>, moves: seq<Move>)
    requires Initial(start.s) && start.calls == [] && CanRun(start, prefix)
    requires var w := After(start, prefix);
      && E.Trace(states, true, passes, turns) && states[0] == w.s.db && |turns| <= |plans|
      && v < |w.s.workers| && w.s.workers[v].Idle? && AllRealised(w, v, passes, turns, circular, plans)
    ensures Delivery.IsRun(worlds, moves) && prefix <= moves && worlds[|moves|].s.db == states[|turns|]
    ensures NoneLost(worlds, moves) ==>
      forall h | Finished(worlds[|moves|].s, h) :: InGraph(worlds[|moves|], h)
  {
    var w := After(start, prefix);
    LoopIsRun(w, v, states, passes, turns, circular, plans);
    moves := prefix + LoopMoves(w, v, passes, turns, plans);
    RunConcat(start, prefix, LoopMoves(w, v, passes, turns, plans));
    worlds := Worlds(start, moves);
    WorldsRun(start, moves);
    if NoneLost(worlds, moves) {
      forall h | Finished(worlds[|moves|].s, h) ensures InGraph(worlds[|moves|], h) {
        FinishedIsInGraph(worlds, moves, |moves|, h);
      }
    }
  }
}
