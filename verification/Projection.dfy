/** The Neo4j projection of committed transfers: idempotent merges whose result depends
    only on which transfers were saved, not on order or repetition. */
module Projection {
  import opened Prelude

  type Address = string

  const ZERO_ADDRESS: Address := "0x0000000000000000000000000000000000000000"

  datatype Key = Sent(hash: string) | Transferred(txHash: string, logIndex: nat)

  datatype EdgeId = EdgeId(from: Address, to: Address, key: Key)

  datatype Props =
    | SentProps(value: int, valueEth: real, nonce: nat, timestamp: Time)
    | TransferProps(token: Address, amount: nat, timestamp: Time)

  datatype Account = Account(firstSeen: Time, lastSeen: Time)

  datatype Graph = Graph(accounts: map<Address, Account>, edges: map<EdgeId, Props>)

  datatype Tx = Tx(hash: string, from: Address, to: Address, value: int, nonce: nat, timestamp: Time)

  datatype Transfer = Transfer(
    txHash: string, logIndex: nat, token: Address, from: Address, to: Address, amount: nat, minedAt: Time)

  datatype Call = SaveTransaction(tx: Tx) | SaveTokenTransfers(transfers: seq<Transfer>)

  /** What a :SENT edge says; the value in ether is exact here. */
  function SentPropsOf(tx: Tx): Props {
    SentProps(tx.value, tx.value as real / 1000000000000000000.0, tx.nonce, tx.timestamp)
  }

  /** One merge: both accounts, then the edge between them. */
  datatype Row = Row(edge: EdgeId, props: Props)

  predicate Mentions(r: Row, a: Address) { a == r.edge.from || a == r.edge.to }

  // ----- What a call sends to the database -----

  /** Mints, burns and blank ends are not money flows. */
  predicate IsFlow(t: Transfer) {
    t.from != ZERO_ADDRESS && t.to != ZERO_ADDRESS && t.from != "" && t.to != ""
  }

  function TransferToRow(t: Transfer): Row {
    Row(EdgeId(t.from, t.to, Transferred(t.txHash, t.logIndex)), TransferProps(t.token, t.amount, t.minedAt))
  }

  function TransferRows(transfers: seq<Transfer>): seq<Row> {
    if transfers == [] then []
    else
      var last := transfers[|transfers| - 1];
      TransferRows(transfers[..|transfers| - 1]) + if IsFlow(last) then [TransferToRow(last)] else []
  }

  function CallRows(c: Call): seq<Row> {
    match c
    case SaveTransaction(tx) =>
      if tx.to == "" then []
      else [Row(EdgeId(tx.from, tx.to, Sent(tx.hash)), SentPropsOf(tx))]
    case SaveTokenTransfers(transfers) => TransferRows(transfers)
  }

  // ----- The merges -----

  /** MERGE (a:Account) ON CREATE SET first_seen SET last_seen = the later of the two. */
  function TouchAccount(accounts: map<Address, Account>, a: Address, at: Time): map<Address, Account> {
    accounts[a := if a in accounts then accounts[a].(lastSeen := Max(accounts[a].lastSeen, at))
                  else Account(at, at)]
  }

  function Merge(g: Graph, r: Row): Graph {
    Graph(TouchAccount(TouchAccount(g.accounts, r.edge.from, r.props.timestamp), r.edge.to, r.props.timestamp),
          g.edges[r.edge := r.props])
  }

  function MergeAll(g: Graph, rows: seq<Row>): Graph {
    if rows == [] then g else Merge(MergeAll(g, rows[..|rows| - 1]), rows[|rows| - 1])
  }

  function Run(g: Graph, calls: seq<Call>): Graph {
    if calls == [] then g else MergeAll(Run(g, calls[..|calls| - 1]), CallRows(calls[|calls| - 1]))
  }

  const EMPTY: Graph := Graph(map[], map[])

  lemma RunLast(g: Graph, calls: seq<Call>, c: Call)
    ensures Run(g, calls + [c]) == MergeAll(Run(g, calls), CallRows(c))
  {
    assert (calls + [c])[..|calls|] == calls;
  }

  lemma {:induction false} NoRows(transfers: seq<Transfer>)
    ensures TransferRows(transfers) == [] <==> forall t | t in transfers :: !IsFlow(t)
  {
    if transfers != [] {
      var k := |transfers| - 1;
      NoRows(transfers[..k]);
      assert transfers == transfers[..k] + [transfers[k]];
    }
  }

  lemma RunOne(g: Graph, c: Call)
    ensures Run(g, [c]) == MergeAll(g, CallRows(c))
    ensures |CallRows(c)| == 1 ==> Run(g, [c]) == Merge(g, CallRows(c)[0])
  {
    RunLast(g, [], c);
    assert [] + [c] == [c];
    if |CallRows(c)| == 1 { assert CallRows(c)[..0] == []; }
  }

  /** How a write transaction ends; the reply to a commit may be lost. */
  datatype Commit = Committed | RolledBack | Unconfirmed

  /** The writer: rows are gathered in a loop, then merged one after another in one transaction. */
  class Neo4j {
    var accounts: map<Address, Account>
    var edges: map<EdgeId, Props>

    function Current(): Graph
      reads this
    {
      Graph(accounts, edges)
    }

    constructor ()
      ensures Current() == EMPTY
    {
      accounts, edges := map[], map[];
    }

    method MergeRow(r: Row)
      modifies this
      ensures Current() == Merge(old(Current()), r)
    {
      accounts := TouchAccount(accounts, r.edge.from, r.props.timestamp);
      accounts := TouchAccount(accounts, r.edge.to, r.props.timestamp);
      edges := edges[r.edge := r.props];
    }

    /** No error is reported if nothing was to be written or the commit was confirmed, and then the
        whole call is in the graph; a rolled-back call leaves no trace of it. */
    method SaveTransaction(tx: Tx, commit: Commit) returns (ok: bool)
      modifies this
      ensures ok <==> tx.to == "" || commit.Committed?
      ensures Current() ==
        if commit.RolledBack? then old(Current()) else Run(old(Current()), [Call.SaveTransaction(tx)])
      ensures !commit.RolledBack? ==> CallDone(old(Current()), Current(), Call.SaveTransaction(tx))
    {
      CallDoes(Current(), Call.SaveTransaction(tx));
      RunOne(Current(), Call.SaveTransaction(tx));
      if tx.to == "" { return true; }
      if !commit.RolledBack? {
        MergeRow(Row(EdgeId(tx.from, tx.to, Sent(tx.hash)), SentPropsOf(tx)));
      }
      return commit.Committed?;
    }

    method SaveTokenTransfers(transfers: seq<Transfer>, commit: Commit) returns (ok: bool)
      modifies this
      ensures ok <==> (forall t | t in transfers :: !RealEnds(t)) || commit.Committed?
      ensures Current() ==
        if commit.RolledBack? then old(Current()) else Run(old(Current()), [Call.SaveTokenTransfers(transfers)])
      ensures !commit.RolledBack? ==> CallDone(old(Current()), Current(), Call.SaveTokenTransfers(transfers))
    {
      var rows := GatherRows(transfers);
      RunOne(Current(), Call.SaveTokenTransfers(transfers));
      CallDoes(Current(), Call.SaveTokenTransfers(transfers));
      if |rows| == 0 { return true; }
      if commit.RolledBack? { return false; }
      MergeRows(rows);
      return commit.Committed?;
    }

    method GatherRows(transfers: seq<Transfer>) returns (rows: seq<Row>)
      ensures rows == TransferRows(transfers)
      ensures rows == [] <==> forall t | t in transfers :: !RealEnds(t)
    {
      rows := [];
      for i := 0 to |transfers|
        invariant rows == TransferRows(transfers[..i])
      {
        assert transfers[..i + 1][..i] == transfers[..i];
        if IsFlow(transfers[i]) {
          rows := rows + [TransferToRow(transfers[i])];
        }
      }
      assert transfers[..|transfers|] == transfers;
      NoRows(transfers);
      assert forall t | t in transfers :: IsFlow(t) <==> RealEnds(t);
    }

    method MergeRows(rows: seq<Row>)
      modifies this
      ensures Current() == MergeAll(old(Current()), rows)
    {
      for i := 0 to |rows|
        invariant Current() == MergeAll(old(Current()), rows[..i])
      {
        assert rows[..i + 1][..i] == rows[..i];
        MergeRow(rows[i]);
      }
      assert rows[..|rows|] == rows;
    }
  }

  // ----- The graph a set of rows describes -----

  /** Each edge has one payload, whenever and however often it is saved. */
  ghost predicate FixedPayloads(rows: set<Row>) {
    forall r, s | r in rows && s in rows && r.edge == s.edge :: r.props == s.props
  }

  ghost predicate IsLatest(rows: set<Row>, a: Address, t: Time) {
    && (exists r | r in rows :: Mentions(r, a) && r.props.timestamp == t)
    && (forall r | r in rows && Mentions(r, a) :: r.props.timestamp <= t)
  }

  /** Exactly the edges of the rows with their payloads, and exactly their accounts, each last
      seen at the latest timestamp of a row that mentions it. */
  ghost predicate Describes(g: Graph, rows: set<Row>) {
    && (forall e, p :: (e in g.edges && g.edges[e] == p) <==> Row(e, p) in rows)
    && (forall a :: a in g.accounts <==> exists r | r in rows :: Mentions(r, a))
    && (forall a | a in g.accounts :: IsLatest(rows, a, g.accounts[a].lastSeen))
  }

  ghost function RowsOf(calls: seq<Call>): set<Row> {
    set c, r | c in calls && r in CallRows(c) :: r
  }

  function CallSet(calls: seq<Call>): set<Call> {
    set c | c in calls
  }

  lemma MergeDescribes(g: Graph, rows: set<Row>, r: Row)
    requires Describes(g, rows) && FixedPayloads(rows + {r})
    ensures Describes(Merge(g, r), rows + {r})
  {
    var after, more := Merge(g, r), rows + {r};
    forall e, p ensures (e in after.edges && after.edges[e] == p) <==> Row(e, p) in more {
      assert (e in g.edges && g.edges[e] == p) <==> Row(e, p) in rows;
      assert r == Row(r.edge, r.props);
      if e == r.edge && Row(e, p) in rows { assert p == r.props; }
    }
    forall a ensures a in after.accounts <==> exists s | s in more :: Mentions(s, a) {
      if a in g.accounts { var s :| s in rows && Mentions(s, a); assert s in more; }
      if Mentions(r, a) { assert r in more; }
    }
    forall a | a in after.accounts ensures IsLatest(more, a, after.accounts[a].lastSeen) {
      MergeLatest(g, rows, r, a);
    }
  }

  lemma MergeLatest(g: Graph, rows: set<Row>, r: Row, a: Address)
    requires a in g.accounts <==> exists s | s in rows :: Mentions(s, a)
    requires a in g.accounts ==> IsLatest(rows, a, g.accounts[a].lastSeen)
    requires a in Merge(g, r).accounts
    ensures IsLatest(rows + {r}, a, Merge(g, r).accounts[a].lastSeen)
  {
    var more := rows + {r};
    assert r in more;
    if a in g.accounts {
      var s :| s in rows && Mentions(s, a) && s.props.timestamp == g.accounts[a].lastSeen;
      assert s in more;
    }
  }

  function Listed(rows: seq<Row>): set<Row> { set r | r in rows }

  lemma ListedNext(rows: seq<Row>)
    requires rows != []
    ensures Listed(rows) == Listed(rows[..|rows| - 1]) + {rows[|rows| - 1]}
  {
    assert rows == rows[..|rows| - 1] + [rows[|rows| - 1]];
  }

  lemma FewerPayloads(rows: set<Row>, all: set<Row>)
    requires FixedPayloads(all) && rows <= all
    ensures FixedPayloads(rows)
  {
  }

  lemma {:induction false} MergeAllDescribes(g: Graph, before: set<Row>, rows: seq<Row>)
    requires Describes(g, before) && FixedPayloads(before + Listed(rows))
    ensures Describes(MergeAll(g, rows), before + Listed(rows))
  {
    if rows == [] {
      assert before + Listed([]) == before;
    } else {
      var k := |rows| - 1;
      var mid := before + Listed(rows[..k]);
      ListedNext(rows);
      assert mid + {rows[k]} == before + Listed(rows);
      FewerPayloads(mid, before + Listed(rows));
      MergeAllDescribes(g, before, rows[..k]);
      MergeDescribes(MergeAll(g, rows[..k]), mid, rows[k]);
    }
  }

  lemma RowsOfNext(calls: seq<Call>)
    requires calls != []
    ensures RowsOf(calls) == RowsOf(calls[..|calls| - 1]) + Listed(CallRows(calls[|calls| - 1]))
  {
    var k := |calls| - 1;
    assert forall c :: c in calls <==> c in calls[..k] + [calls[k]];
  }

  lemma {:induction false} RunDescribes(calls: seq<Call>)
    requires FixedPayloads(RowsOf(calls))
    ensures Describes(Run(EMPTY, calls), RowsOf(calls))
  {
    if calls != [] {
      var k := |calls| - 1;
      RowsOfNext(calls);
      FewerPayloads(RowsOf(calls[..k]), RowsOf(calls));
      RunDescribes(calls[..k]);
      MergeAllDescribes(Run(EMPTY, calls[..k]), RowsOf(calls[..k]), CallRows(calls[k]));
    }
  }

  ghost function LastSeen(g: Graph): map<Address, Time> {
    map a | a in g.accounts :: g.accounts[a].lastSeen
  }

  /** At most one graph, first_seen aside, is described by a set of rows. */
  lemma DescribedOnce(g: Graph, h: Graph, rows: set<Row>)
    requires Describes(g, rows) && Describes(h, rows)
    ensures g.edges == h.edges && LastSeen(g) == LastSeen(h)
  {
    forall e ensures e in g.edges <==> e in h.edges {
      if e in g.edges { assert Row(e, g.edges[e]) in rows; }
      if e in h.edges { assert Row(e, h.edges[e]) in rows; }
    }
    forall e | e in g.edges ensures g.edges[e] == h.edges[e] {
      assert Row(e, g.edges[e]) in rows;
    }
    forall a ensures a in g.accounts <==> a in h.accounts {}
    forall a | a in g.accounts ensures g.accounts[a].lastSeen == h.accounts[a].lastSeen {
      assert IsLatest(rows, a, g.accounts[a].lastSeen) && IsLatest(rows, a, h.accounts[a].lastSeen);
    }
  }

  lemma SameRows(cs: seq<Call>, ds: seq<Call>)
    requires CallSet(cs) == CallSet(ds)
    ensures RowsOf(cs) <= RowsOf(ds)
  {
    forall r | r in RowsOf(cs) ensures r in RowsOf(ds) {
      var c :| c in cs && r in CallRows(c);
      assert c in CallSet(cs);
      assert c in ds;
    }
  }

  /** The projection converges: any two histories that made the same calls, in any order and with
      any repeats, end with the same edges, the same edge properties and the same last_seen. */
  lemma ProjectionConverges(cs: seq<Call>, ds: seq<Call>)
    requires CallSet(cs) == CallSet(ds) && FixedPayloads(RowsOf(cs))
    ensures Run(EMPTY, cs).edges == Run(EMPTY, ds).edges
    ensures LastSeen(Run(EMPTY, cs)) == LastSeen(Run(EMPTY, ds))
    ensures Describes(Run(EMPTY, cs), RowsOf(cs))
  {
    SameRows(cs, ds);
    SameRows(ds, cs);
    assert RowsOf(cs) == RowsOf(ds);
    RunDescribes(cs);
    RunDescribes(ds);
    DescribedOnce(Run(EMPTY, cs), Run(EMPTY, ds), RowsOf(cs));
  }

  lemma {:induction false} TransferRowsFacts(transfers: seq<Transfer>, r: Row)
    ensures r in TransferRows(transfers) <==> exists t | t in transfers :: IsFlow(t) && r == TransferToRow(t)
  {
    if transfers != [] {
      var k := |transfers| - 1;
      TransferRowsFacts(transfers[..k], r);
      assert transfers == transfers[..k] + [transfers[k]];
    }
  }

  // ----- The graph, read off the calls -----

  /** Both ends are there, and neither is the zero address: not a mint and not a burn. */
  predicate RealEnds(t: Transfer) {
    && t.from != "" && t.from != "0x0000000000000000000000000000000000000000"
    && t.to != "" && t.to != "0x0000000000000000000000000000000000000000"
  }

  lemma FlowExactly(t: Transfer)
    ensures IsFlow(t) <==> RealEnds(t)
  {
  }

  /** The call saves the edge: as its one transaction, or as its i-th transfer. */
  predicate Saves(c: Call, i: nat, e: EdgeId) {
    match c
    case SaveTransaction(tx) => i == 0 && tx.to != "" && e.from == tx.from && e.to == tx.to && e.key == Sent(tx.hash)
    case SaveTokenTransfers(ts) =>
      && i < |ts| && RealEnds(ts[i]) && e.from == ts[i].from && e.to == ts[i].to
      && e.key == Transferred(ts[i].txHash, ts[i].logIndex)
  }

  /** The properties are those of the transaction, or of the i-th transfer. */
  predicate SavedAs(c: Call, i: nat, p: Props) {
    match c
    case SaveTransaction(tx) =>
      && p.SentProps? && p.value == tx.value && p.valueEth * 1000000000000000000.0 == tx.value as real
      && p.nonce == tx.nonce && p.timestamp == tx.timestamp
    case SaveTokenTransfers(ts) =>
      && i < |ts| && p.TransferProps? && p.token == ts[i].token && p.amount == ts[i].amount
      && p.timestamp == ts[i].minedAt
  }

  /** The last time the call saves the edge, and as what. */
  ghost predicate SavedLast(c: Call, i: nat, e: EdgeId, p: Props) {
    Saves(c, i, e) && SavedAs(c, i, p) && forall j: nat | j > i :: !Saves(c, j, e)
  }

  /** The edges after a call: one it saves is as it was saved last, any other as before. */
  ghost predicate EdgeAfter(before: map<EdgeId, Props>, after: map<EdgeId, Props>, c: Call, e: EdgeId) {
    if exists i: nat :: Saves(c, i, e) then e in after && exists i: nat :: SavedLast(c, i, e, after[e])
    else (e in after <==> e in before) && (e in before ==> after[e] == before[e])
  }

  lemma {:induction false} TransfersSave(g: Graph, ts: seq<Transfer>, e: EdgeId)
    ensures EdgeAfter(g.edges, MergeAll(g, TransferRows(ts)).edges, SaveTokenTransfers(ts), e)
  {
    if ts != [] {
      var k: nat := |ts| - 1;
      TransfersSave(g, ts[..k], e);
      OneMoreFlow(g, ts);
      TransferSaves(g.edges, MergeAll(g, TransferRows(ts[..k])).edges, MergeAll(g, TransferRows(ts)).edges, ts, e);
    }
  }

  lemma TransferSaves(
    first: map<EdgeId, Props>, before: map<EdgeId, Props>, after: map<EdgeId, Props>, ts: seq<Transfer>, e: EdgeId)
    requires ts != [] && EdgeAfter(first, before, SaveTokenTransfers(ts[..|ts| - 1]), e)
    requires var r := TransferToRow(ts[|ts| - 1]);
      after == if RealEnds(ts[|ts| - 1]) then before[r.edge := r.props] else before
    ensures EdgeAfter(first, after, SaveTokenTransfers(ts), e)
  {
    var k: nat := |ts| - 1;
    var init, all := SaveTokenTransfers(ts[..k]), SaveTokenTransfers(ts);
    if Saves(all, k, e) {
      assert SavedLast(all, k, e, after[e]);
    } else {
      assert forall i: nat :: Saves(all, i, e) <==> Saves(init, i, e);
      if exists i: nat :: Saves(init, i, e) {
        var i: nat :| SavedLast(init, i, e, before[e]);
        assert SavedLast(all, i, e, after[e]);
      }
    }
  }

  /** One transfer more is merged, if it has two real ends. */
  lemma OneMoreFlow(g: Graph, ts: seq<Transfer>)
    requires ts != []
    ensures var t, before := ts[|ts| - 1], MergeAll(g, TransferRows(ts[..|ts| - 1]));
      MergeAll(g, TransferRows(ts)) == if RealEnds(t) then Merge(before, TransferToRow(t)) else before
  {
    var rows, r := TransferRows(ts[..|ts| - 1]), TransferToRow(ts[|ts| - 1]);
    FlowExactly(ts[|ts| - 1]);
    assert (rows + [r])[..|rows|] == rows;
    assert rows + [] == rows;
  }

  lemma OneTransaction(g: Graph, tx: Tx)
    ensures MergeAll(g, CallRows(SaveTransaction(tx))) ==
      if tx.to != "" then Merge(g, Row(EdgeId(tx.from, tx.to, Sent(tx.hash)), SentPropsOf(tx))) else g
  {
    var rows := CallRows(SaveTransaction(tx));
    if tx.to != "" { assert rows[..0] == []; }
  }

  lemma CallSaves(g: Graph, c: Call, e: EdgeId)
    ensures EdgeAfter(g.edges, MergeAll(g, CallRows(c)).edges, c, e)
  {
    match c
    case SaveTransaction(tx) =>
      OneTransaction(g, tx);
      if Saves(c, 0, e) { assert SavedLast(c, 0, e, MergeAll(g, CallRows(c)).edges[e]); }
    case SaveTokenTransfers(ts) => TransfersSave(g, ts, e);
  }

  ghost predicate CallSavesIt(calls: seq<Call>, k: nat, e: EdgeId) {
    k < |calls| && exists i: nat :: Saves(calls[k], i, e)
  }

  /** Call k is the last to save the edge. */
  ghost predicate EdgeFrom(calls: seq<Call>, k: nat, i: nat, e: EdgeId, p: Props) {
    k < |calls| && SavedLast(calls[k], i, e, p) && forall m: nat | k < m :: !CallSavesIt(calls, m, e)
  }

  /** The edge is there exactly if a call saved it, and says what was saved last. */
  ghost predicate EdgeSaved(calls: seq<Call>, edges: map<EdgeId, Props>, e: EdgeId) {
    if e in edges then exists k: nat, i: nat :: EdgeFrom(calls, k, i, e, edges[e])
    else forall k: nat :: !CallSavesIt(calls, k, e)
  }

  lemma OneMoreCall(calls: seq<Call>, c: Call, e: EdgeId, k: nat)
    ensures CallSavesIt(calls + [c], k, e) <==>
      if k == |calls| then exists i: nat :: Saves(c, i, e) else CallSavesIt(calls, k, e)
  {
    var more := calls + [c];
    assert k < |more| ==> more[k] == if k == |calls| then c else calls[k];
    if k == |calls| { assert CallSavesIt(more, k, e) <==> exists i: nat :: Saves(c, i, e); }
  }

  lemma EdgeKept(calls: seq<Call>, c: Call, k: nat, i: nat, e: EdgeId, p: Props)
    requires EdgeFrom(calls, k, i, e, p) && !exists i: nat :: Saves(c, i, e)
    ensures EdgeFrom(calls + [c], k, i, e, p)
  {
    assert (calls + [c])[k] == calls[k];
    forall m: nat | k < m ensures !CallSavesIt(calls + [c], m, e) { OneMoreCall(calls, c, e, m); }
  }

  lemma EdgeNew(calls: seq<Call>, c: Call, i: nat, e: EdgeId, p: Props)
    requires SavedLast(c, i, e, p)
    ensures EdgeFrom(calls + [c], |calls|, i, e, p)
  {
  }

  lemma EdgeStep(
    calls: seq<Call>, c: Call, before: map<EdgeId, Props>, after: map<EdgeId, Props>, e: EdgeId)
    requires EdgeSaved(calls, before, e) && EdgeAfter(before, after, c, e)
    ensures EdgeSaved(calls + [c], after, e)
  {
    if exists i: nat :: Saves(c, i, e) {
      var i: nat :| SavedLast(c, i, e, after[e]);
      EdgeNew(calls, c, i, e, after[e]);
    } else if e in before {
      var k: nat, i: nat :| EdgeFrom(calls, k, i, e, before[e]);
      EdgeKept(calls, c, k, i, e, before[e]);
    } else {
      forall k: nat ensures !CallSavesIt(calls + [c], k, e) { OneMoreCall(calls, c, e, k); }
    }
  }

  /** Every edge and its properties, after any calls whatever: an edge is there if and only if a call saved
      it, and says what was saved last. */
  lemma {:induction false} EdgeProperties(calls: seq<Call>, e: EdgeId)
    ensures EdgeSaved(calls, Run(EMPTY, calls).edges, e)
  {
    if calls != [] {
      var init, c := calls[..|calls| - 1], calls[|calls| - 1];
      EdgeProperties(init, e);
      CallSaves(Run(EMPTY, init), c, e);
      EdgeStep(init, c, Run(EMPTY, init).edges, Run(EMPTY, calls).edges, e);
      assert calls == init + [c];
    }
  }

  /** Exactly the transactions with a recipient have SENT edges, and exactly the transfers whose ends are
      neither blank nor the zero address TRANSFERRED ones. */
  lemma EdgesOfCalls(calls: seq<Call>, e: EdgeId)
    ensures e in Run(EMPTY, calls).edges <==>
      match e.key
      case Sent(h) => exists c | c in calls :: c.SaveTransaction? && c.tx.hash == h
                        && c.tx.from == e.from && c.tx.to == e.to && e.to != ""
      case Transferred(h, i) => exists c, t | c in calls && c.SaveTokenTransfers? && t in c.transfers ::
                        && t.txHash == h && t.logIndex == i && t.from == e.from && t.to == e.to
                        && t.from != "" && t.from != "0x0000000000000000000000000000000000000000"
                        && t.to != "" && t.to != "0x0000000000000000000000000000000000000000"
  {
    EdgeProperties(calls, e);
    match e.key
    case Sent(h) =>
      if c :| c in calls && c.SaveTransaction? && c.tx.hash == h
              && c.tx.from == e.from && c.tx.to == e.to && e.to != "" {
        var k: nat :| k < |calls| && calls[k] == c;
        assert Saves(calls[k], 0, e) && CallSavesIt(calls, k, e);
      }
    case Transferred(h, i) =>
      if c, t :| c in calls && c.SaveTokenTransfers? && t in c.transfers && RealEnds(t)
                 && t.txHash == h && t.logIndex == i && t.from == e.from && t.to == e.to {
        var k: nat :| k < |calls| && calls[k] == c;
        var n: nat :| n < |c.transfers| && c.transfers[n] == t;
        assert Saves(calls[k], n, e) && CallSavesIt(calls, k, e);
      }
  }

  // ----- Its accounts -----

  type Accounts = map<Address, Account>

  /** The times of one account: it was first seen at the first of them, and last seen at the latest. */
  ghost predicate SeenAt(accounts: Accounts, a: Address, times: seq<Time>) {
    && (a in accounts <==> times != [])
    && (a in accounts ==>
          && accounts[a].firstSeen == times[0] && accounts[a].lastSeen in times
          && forall t | t in times :: t <= accounts[a].lastSeen)
  }

  /** When the transfers meet the account, in order. */
  function TimesOf(ts: seq<Transfer>, a: Address): seq<Time> {
    if ts == [] then []
    else
      var k: nat := |ts| - 1;
      TimesOf(ts[..k], a) + if RealEnds(ts[k]) && (a == ts[k].from || a == ts[k].to) then [ts[k].minedAt] else []
  }

  function CallTimes(c: Call, a: Address): seq<Time> {
    match c
    case SaveTransaction(tx) => if tx.to != "" && (a == tx.from || a == tx.to) then [tx.timestamp] else []
    case SaveTokenTransfers(ts) => TimesOf(ts, a)
  }

  /** When the calls meet the account, in order. */
  function Times(calls: seq<Call>, a: Address): seq<Time> {
    if calls == [] then [] else Times(calls[..|calls| - 1], a) + CallTimes(calls[|calls| - 1], a)
  }

  lemma SeenAgain(before: Accounts, after: Accounts, a: Address, times: seq<Time>, at: Time)
    requires SeenAt(before, a, times)
    requires a in after && after[a] == if a in before then Account(before[a].firstSeen, Max(before[a].lastSeen, at))
                                       else Account(at, at)
    ensures SeenAt(after, a, times + [at])
  {
    var more := times + [at];
    assert forall t :: t in more <==> t in times || t == at;
  }

  /** Meeting both ends of a row, which may be one account. */
  lemma TouchedBoth(before: Accounts, from: Address, to: Address, at: Time, a: Address, times: seq<Time>)
    requires SeenAt(before, a, times)
    ensures var after := TouchAccount(TouchAccount(before, from, at), to, at);
      SeenAt(after, a, times + if a == from || a == to then [at] else [])
  {
    var after := TouchAccount(TouchAccount(before, from, at), to, at);
    if a == from || a == to {
      SeenAgain(before, after, a, times, at);
    } else {
      assert times + [] == times;
    }
  }

  lemma TimesNext(ts: seq<Transfer>, a: Address, times: seq<Time>)
    requires ts != []
    ensures var t := ts[|ts| - 1];
      times + TimesOf(ts, a) == times + TimesOf(ts[..|ts| - 1], a) +
        if RealEnds(t) then (if a == t.from || a == t.to then [t.minedAt] else []) else []
    ensures times + TimesOf(ts[..|ts| - 1], a) + [] == times + TimesOf(ts[..|ts| - 1], a)
  {
  }

  lemma {:induction false} TransfersSeen(g: Graph, ts: seq<Transfer>, a: Address, times: seq<Time>)
    requires SeenAt(g.accounts, a, times)
    ensures SeenAt(MergeAll(g, TransferRows(ts)).accounts, a, times + TimesOf(ts, a))
  {
    if ts == [] {
      assert times + [] == times;
    } else {
      var k: nat := |ts| - 1;
      var t, sofar := ts[k], times + TimesOf(ts[..k], a);
      TransfersSeen(g, ts[..k], a, times);
      OneMoreFlow(g, ts);
      var before, after := MergeAll(g, TransferRows(ts[..k])), MergeAll(g, TransferRows(ts));
      TimesNext(ts, a, times);
      if RealEnds(t) { TouchedBoth(before.accounts, t.from, t.to, t.minedAt, a, sofar); }
    }
  }

  /** Every account, after any calls whatever: it is there if and only if a call met it, and was first seen when
      it was met first and last seen at the latest time it was met. */
  lemma {:induction false} AccountProperties(calls: seq<Call>, a: Address)
    ensures SeenAt(Run(EMPTY, calls).accounts, a, Times(calls, a))
  {
    if calls != [] {
      var init, c := calls[..|calls| - 1], calls[|calls| - 1];
      var g := Run(EMPTY, init);
      AccountProperties(init, a);
      CallSeen(g, c, a, Times(init, a));
    }
  }

  lemma CallSeen(g: Graph, c: Call, a: Address, times: seq<Time>)
    requires SeenAt(g.accounts, a, times)
    ensures SeenAt(MergeAll(g, CallRows(c)).accounts, a, times + CallTimes(c, a))
  {
    match c
    case SaveTransaction(tx) =>
      OneTransaction(g, tx);
      if tx.to != "" {
        TouchedBoth(g.accounts, tx.from, tx.to, tx.timestamp, a, times);
      } else {
        assert times + [] == times;
      }
    case SaveTokenTransfers(ts) => TransfersSeen(g, ts, a, times);
  }

  /** What one call does to a graph: it leaves the edges it saves as it saves them, and meets its accounts. */
  ghost predicate CallDone(before: Graph, after: Graph, c: Call) {
    && (forall e :: EdgeAfter(before.edges, after.edges, c, e))
    && forall a, times | SeenAt(before.accounts, a, times) :: SeenAt(after.accounts, a, times + CallTimes(c, a))
  }

  lemma CallDoes(g: Graph, c: Call)
    ensures CallDone(g, Run(g, [c]), c)
  {
    RunOne(g, c);
    forall e ensures EdgeAfter(g.edges, Run(g, [c]).edges, c, e) { CallSaves(g, c, e); }
    forall a, times | SeenAt(g.accounts, a, times) ensures SeenAt(Run(g, [c]).accounts, a, times + CallTimes(c, a)) {
      CallSeen(g, c, a, times);
    }
  }

  /** first_seen is left out with reason: it is the timestamp of whichever call came first. */
  lemma FirstSeenDependsOnOrder(a: Tx, b: Tx)
    requires a.from == b.from && a.to != "" && b.to != "" && a.timestamp != b.timestamp
    ensures Run(EMPTY, [SaveTransaction(a), SaveTransaction(b)]).accounts[a.from].firstSeen == a.timestamp
    ensures Run(EMPTY, [SaveTransaction(b), SaveTransaction(a)]).accounts[a.from].firstSeen == b.timestamp
  {
    TwoCalls(a, b);
    TwoCalls(b, a);
  }

  lemma TwoCalls(a: Tx, b: Tx)
    requires a.from == b.from && a.to != "" && b.to != ""
    ensures var g := Run(EMPTY, [SaveTransaction(a), SaveTransaction(b)]);
      a.from in g.accounts && g.accounts[a.from].firstSeen == a.timestamp
  {
    var ca, cb := SaveTransaction(a), SaveTransaction(b);
    RunOne(EMPTY, ca);
    RunLast(EMPTY, [ca], cb);
    assert [ca] + [cb] == [ca, cb];
    RunOne(Run(EMPTY, [ca]), cb);
  }
}
