/** Row locks taken by concurrent ingestion writers: each one locks the rows of its statements
    in order and releases all of them when its transaction ends. */
module Locking {
  import opened Prelude
  import opened Schema

  /** What SaveTransaction locks: account rows, then the keys it inserts. */
  datatype Resource = AccountKey(address: Address) | TxKey(hash: Hash) | JobKey(hash: Hash)

  type Order = (string, string) -> bool

  /** The collation used by ORDER BY: any strict total order will do. */
  ghost predicate StrictTotal(less: Order) {
    && (forall a: string :: !less(a, a))
    && (forall a: string, b: string :: a != b ==> less(a, b) || less(b, a))
    && (forall a: string, b: string, c: string :: less(a, b) && less(b, c) ==> less(a, c))
  }

  /** Accounts before transactions before jobs, each kind in collation order. */
  predicate Precedes(less: Order, x: Resource, y: Resource) {
    match (x, y)
    case (AccountKey(a), AccountKey(b)) => less(a, b)
    case (TxKey(a), TxKey(b)) => less(a, b)
    case (JobKey(a), JobKey(b)) => less(a, b)
    case (AccountKey(_), _) => true
    case (TxKey(_), JobKey(_)) => true
    case _ => false
  }

  predicate Sorted(less: Order, plan: seq<Resource>) {
    forall i, j | 0 <= i < j < |plan| :: Precedes(less, plan[i], plan[j])
  }

  // ----- The order of one upsert -----

  /** Insert an address into a sorted list, dropping duplicates. */
  function Insert(less: Order, a: Address, list: seq<Address>): seq<Address> {
    if list == [] then [a]
    else if a == list[0] then list
    else if less(a, list[0]) then [a] + list
    else [list[0]] + Insert(less, a, list[1..])
  }

  /** SELECT DISTINCT a ... WHERE a <> '' ... ORDER BY a. */
  function LockOrder(less: Order, addresses: seq<Address>): seq<Address> {
    if addresses == [] then []
    else if addresses[0] == "" then LockOrder(less, addresses[1..])
    else Insert(less, addresses[0], LockOrder(less, addresses[1..]))
  }

  predicate Increasing(less: Order, list: seq<Address>) {
    forall i, j | 0 <= i < j < |list| :: less(list[i], list[j])
  }

  lemma {:induction false} InsertSorts(less: Order, a: Address, list: seq<Address>)
    requires StrictTotal(less) && Increasing(less, list)
    ensures Increasing(less, Insert(less, a, list))
    ensures forall x :: x in Insert(less, a, list) <==> x == a || x in list
  {
    if list != [] && a != list[0] && !less(a, list[0]) {
      InsertSorts(less, a, list[1..]);
      var rest := Insert(less, a, list[1..]);
      forall x | x in rest ensures less(list[0], x) {
        if x != a { var i :| 0 <= i < |list[1..]| && list[1..][i] == x; }
      }
      assert forall x :: x in list <==> x == list[0] || x in list[1..];
    }
  }

  /** The upsert visits each non-empty address once, in increasing order. */
  lemma {:induction false} LockOrderSorted(less: Order, addresses: seq<Address>)
    requires StrictTotal(less)
    ensures Increasing(less, LockOrder(less, addresses))
    ensures forall x :: x in LockOrder(less, addresses) <==> x in addresses && x != ""
  {
    if addresses != [] {
      LockOrderSorted(less, addresses[1..]);
      if addresses[0] != "" { InsertSorts(less, addresses[0], LockOrder(less, addresses[1..])); }
      assert forall x :: x in addresses <==> x == addresses[0] || x in addresses[1..];
    }
  }

  function Accounts(list: seq<Address>): seq<Resource> {
    seq(|list|, i requires 0 <= i < |list| => AccountKey(list[i]))
  }

  /** SaveTransaction: the accounts in order, the transaction key, and the job key if it has a recipient. */
  function SaveTransactionPlan(less: Order, tx: Tx): seq<Resource> {
    Accounts(LockOrder(less, [tx.from, tx.to])) + [TxKey(tx.hash)] + if tx.to == "" then [] else [JobKey(tx.hash)]
  }

  lemma SaveTransactionPlanSorted(less: Order, tx: Tx)
    requires StrictTotal(less)
    ensures Sorted(less, SaveTransactionPlan(less, tx))
  {
    LockOrderSorted(less, [tx.from, tx.to]);
  }

  /** What it locks: its two accounts, the transaction, and the job if there is a recipient. */
  lemma SaveTransactionPlanLocks(less: Order, tx: Tx, r: Resource)
    requires StrictTotal(less)
    ensures r in SaveTransactionPlan(less, tx) <==>
      match r
      case AccountKey(a) => a != "" && (a == tx.from || a == tx.to)
      case TxKey(h) => h == tx.hash
      case JobKey(h) => h == tx.hash && tx.to != ""
  {
    var list := LockOrder(less, [tx.from, tx.to]);
    LockOrderSorted(less, [tx.from, tx.to]);
    var plan := SaveTransactionPlan(less, tx);
    if r.AccountKey? && r.address in list {
      var i :| 0 <= i < |list| && list[i] == r.address;
      assert plan[i] == r;
    }
    if r == TxKey(tx.hash) { assert plan[|list|] == r; }
    if r == JobKey(tx.hash) && tx.to != "" { assert plan[|list| + 1] == r; }
  }

  // ----- Concurrent writers -----

  /** progress[i] counts the locks writer i has taken; one more once it has ended. */
  type State = seq<nat>

  predicate ValidState(plans: seq<seq<Resource>>, s: State) {
    |s| == |plans| && forall i | 0 <= i < |s| :: s[i] <= |plans[i]| + 1
  }

  predicate Ended(plans: seq<seq<Resource>>, s: State, i: nat)
    requires ValidState(plans, s) && i < |s|
  {
    s[i] == |plans[i]| + 1
  }

  predicate Holds(plans: seq<seq<Resource>>, s: State, i: nat, r: Resource)
    requires ValidState(plans, s) && i < |s|
  {
    !Ended(plans, s, i) && r in plans[i][..s[i]]
  }

  predicate Waits(plans: seq<seq<Resource>>, s: State, i: nat, j: nat)
    requires ValidState(plans, s) && i < |s| && j < |s|
  {
    i != j && s[i] < |plans[i]| && Holds(plans, s, j, plans[i][s[i]])
  }

  predicate CanStep(plans: seq<seq<Resource>>, s: State, i: nat)
    requires ValidState(plans, s) && i < |s|
  {
    !Ended(plans, s, i) && forall j | 0 <= j < |s| :: !Waits(plans, s, i, j)
  }

  function Advance(s: State, i: nat): State
    requires i < |s|
  {
    s[i := s[i] + 1]
  }

  function Start(plans: seq<seq<Resource>>): State {
    seq(|plans|, i => 0)
  }

  ghost predicate IsRun(plans: seq<seq<Resource>>, states: seq<State>, who: seq<nat>) {
    && |states| == |who| + 1 && states[0] == Start(plans)
    && forall k | 0 <= k < |who| ::
         && ValidState(plans, states[k]) && who[k] < |plans| && CanStep(plans, states[k], who[k])
         && states[k + 1] == Advance(states[k], who[k])
  }

  /** No row is locked twice. */
  ghost predicate Exclusive(plans: seq<seq<Resource>>, s: State)
    requires ValidState(plans, s)
  {
    forall i, j, r | 0 <= i < |s| && 0 <= j < |s| && i != j :: !(Holds(plans, s, i, r) && Holds(plans, s, j, r))
  }

  lemma StepKeepsExclusive(plans: seq<seq<Resource>>, s: State, i: nat)
    requires ValidState(plans, s) && Exclusive(plans, s) && i < |s| && CanStep(plans, s, i)
    ensures ValidState(plans, Advance(s, i)) && Exclusive(plans, Advance(s, i))
  {
    var t := Advance(s, i);
    forall j, r | 0 <= j < |s| && Holds(plans, t, j, r)
      ensures Holds(plans, s, j, r) || (j == i && s[i] < |plans[i]| && r == plans[i][s[i]])
    {
      if j == i {
        assert plans[i][..t[i]] == plans[i][..s[i]] + [plans[i][s[i]]];
      }
    }
    forall j, k, r | 0 <= j < |s| && 0 <= k < |s| && j != k && Holds(plans, t, j, r)
      ensures !Holds(plans, t, k, r)
    {
      if s[i] < |plans[i]| { assert !Waits(plans, s, i, j) && !Waits(plans, s, i, k); }
    }
  }

  lemma {:induction false} ReachableExclusive(
    plans: seq<seq<Resource>>, states: seq<State>, who: seq<nat>, k: nat)
    requires IsRun(plans, states, who) && k < |states|
    ensures ValidState(plans, states[k]) && Exclusive(plans, states[k])
  {
    if k > 0 {
      ReachableExclusive(plans, states, who, k - 1);
      StepKeepsExclusive(plans, states[k - 1], who[k - 1]);
    }
  }

  // ----- No deadlock -----

  predicate Holding(plans: seq<seq<Resource>>, s: State, i: nat)
    requires ValidState(plans, s) && i < |s|
  {
    !Ended(plans, s, i) && s[i] > 0
  }

  /** The greatest row held by a writer: the last one it took. */
  function Last(plans: seq<seq<Resource>>, s: State, i: nat): Resource
    requires ValidState(plans, s) && i < |s| && Holding(plans, s, i)
  {
    plans[i][s[i] - 1]
  }

  lemma PrecedesTotal(less: Order, x: Resource, y: Resource, z: Resource)
    requires StrictTotal(less)
    ensures !Precedes(less, x, x)
    ensures x != y ==> Precedes(less, x, y) || Precedes(less, y, x)
    ensures Precedes(less, x, y) && Precedes(less, y, z) ==> Precedes(less, x, z)
  {
  }

  /** Among the first n writers, one whose last row nobody's last row follows. */
  lemma {:induction false} TopHolder(less: Order, plans: seq<seq<Resource>>, s: State, n: nat)
    returns (top: Option<nat>)
    requires StrictTotal(less) && ValidState(plans, s) && n <= |s|
    ensures top.None? ==> forall i | 0 <= i < n :: !Holding(plans, s, i)
    ensures top.Some? ==> top.value < n && Holding(plans, s, top.value)
    ensures top.Some? ==> forall i | 0 <= i < n && Holding(plans, s, i) ::
      !Precedes(less, Last(plans, s, top.value), Last(plans, s, i))
  {
    if n == 0 { return None; }
    top := TopHolder(less, plans, s, n - 1);
    if Holding(plans, s, n - 1) {
      PrecedesTotal(less, Last(plans, s, n - 1), Last(plans, s, n - 1), Last(plans, s, n - 1));
      if top.None? {
        top := Some(n - 1);
      } else if Precedes(less, Last(plans, s, top.value), Last(plans, s, n - 1)) {
        var before := top.value;
        top := Some(n - 1);
        forall i | 0 <= i < n - 1 && Holding(plans, s, i)
          ensures !Precedes(less, Last(plans, s, n - 1), Last(plans, s, i))
        {
          PrecedesTotal(less, Last(plans, s, before), Last(plans, s, n - 1), Last(plans, s, i));
        }
      }
    }
  }

  lemma HeldUpToLast(less: Order, plans: seq<seq<Resource>>, s: State, i: nat, r: Resource)
    requires ValidState(plans, s) && i < |s| && Sorted(less, plans[i]) && Holds(plans, s, i, r)
    ensures Holding(plans, s, i) && (r == Last(plans, s, i) || Precedes(less, r, Last(plans, s, i)))
  {
  }

  /** In every state with an unfinished writer, some writer can step. */
  lemma SomeoneCanStep(less: Order, plans: seq<seq<Resource>>, s: State, unfinished: nat) returns (i: nat)
    requires StrictTotal(less) && ValidState(plans, s)
    requires forall p | p in plans :: Sorted(less, p)
    requires unfinished < |s| && !Ended(plans, s, unfinished)
    ensures i < |s| && CanStep(plans, s, i)
  {
    var top := TopHolder(less, plans, s, |s|);
    i := if top.Some? then top.value else unfinished;
    forall j | 0 <= j < |s| ensures !Waits(plans, s, i, j) {
      if i != j && s[i] < |plans[i]| && Holds(plans, s, j, plans[i][s[i]]) {
        assert plans[i] in plans && plans[j] in plans;
        HeldUpToLast(less, plans, s, j, plans[i][s[i]]);
        assert Precedes(less, Last(plans, s, i), plans[i][s[i]]);
        PrecedesTotal(less, Last(plans, s, i), plans[i][s[i]], Last(plans, s, j));
      }
    }
  }

  function NextIn(cycle: seq<nat>, k: nat): nat
    requires k < |cycle|
  {
    if k + 1 == |cycle| then cycle[0] else cycle[k + 1]
  }

  ghost predicate WaitCycle(plans: seq<seq<Resource>>, s: State, cycle: seq<nat>)
    requires ValidState(plans, s)
  {
    && cycle != []
    && (forall k | 0 <= k < |cycle| :: cycle[k] < |s|)
    && forall k | 0 <= k < |cycle| :: Waits(plans, s, cycle[k], NextIn(cycle, k))
  }

  lemma WaitsForGreater(less: Order, plans: seq<seq<Resource>>, s: State, i: nat, j: nat)
    requires StrictTotal(less) && ValidState(plans, s) && forall p | p in plans :: Sorted(less, p)
    requires i < |s| && j < |s| && Waits(plans, s, i, j) && s[j] < |plans[j]|
    ensures Precedes(less, plans[i][s[i]], plans[j][s[j]])
  {
    assert plans[j] in plans;
  }

  /** The row a waiting writer waits for. */
  function Wanted(plans: seq<seq<Resource>>, s: State, i: nat): Resource
    requires ValidState(plans, s) && i < |s| && s[i] < |plans[i]|
  {
    plans[i][s[i]]
  }

  lemma {:induction false} AlongCycle(less: Order, plans: seq<seq<Resource>>, s: State, cycle: seq<nat>, k: nat)
    requires StrictTotal(less) && ValidState(plans, s) && forall p | p in plans :: Sorted(less, p)
    requires WaitCycle(plans, s, cycle) && k < |cycle|
    ensures Waits(plans, s, cycle[0], NextIn(cycle, 0)) && Waits(plans, s, cycle[k], NextIn(cycle, k))
    ensures NextIn(cycle, k) in cycle && s[NextIn(cycle, k)] < |plans[NextIn(cycle, k)]|
    ensures Precedes(less, Wanted(plans, s, cycle[0]), Wanted(plans, s, NextIn(cycle, k)))
  {
    var j := NextIn(cycle, k);
    var m := if k + 1 == |cycle| then 0 else k + 1;
    assert cycle[m] == j && Waits(plans, s, cycle[m], NextIn(cycle, m));
    WaitsForGreater(less, plans, s, cycle[k], j);
    if k > 0 {
      AlongCycle(less, plans, s, cycle, k - 1);
      PrecedesTotal(less, Wanted(plans, s, cycle[0]), Wanted(plans, s, cycle[k]), Wanted(plans, s, j));
    }
  }

  /** Writers that lock in sorted order never wait for each other in a circle. */
  lemma NoWaitCycle(less: Order, plans: seq<seq<Resource>>, s: State, cycle: seq<nat>)
    requires StrictTotal(less) && ValidState(plans, s) && forall p | p in plans :: Sorted(less, p)
    ensures !WaitCycle(plans, s, cycle)
  {
    if WaitCycle(plans, s, cycle) {
      AlongCycle(less, plans, s, cycle, |cycle| - 1);
      var first := Wanted(plans, s, cycle[0]);
      PrecedesTotal(less, first, first, first);
    }
  }

  // ----- Every run ends -----

  function Left(plans: seq<seq<Resource>>, s: State): nat
    requires ValidState(plans, s)
  {
    if plans == [] then 0
    else |plans[0]| + 1 - s[0] + Left(plans[1..], s[1..])
  }

  lemma {:induction false} AdvanceLeft(plans: seq<seq<Resource>>, s: State, i: nat)
    requires ValidState(plans, s) && i < |s| && !Ended(plans, s, i)
    ensures ValidState(plans, Advance(s, i)) && Left(plans, Advance(s, i)) == Left(plans, s) - 1
  {
    if i == 0 {
      assert Advance(s, 0)[1..] == s[1..];
    } else {
      AdvanceLeft(plans[1..], s[1..], i - 1);
      assert Advance(s, i)[1..] == Advance(s[1..], i - 1);
    }
  }

  lemma {:induction false} NothingLeft(plans: seq<seq<Resource>>, s: State, i: nat)
    requires ValidState(plans, s) && i < |s| && Left(plans, s) == 0
    ensures Ended(plans, s, i)
  {
    if i > 0 { NothingLeft(plans[1..], s[1..], i - 1); }
  }

  lemma {:induction false} RunLeft(plans: seq<seq<Resource>>, states: seq<State>, who: seq<nat>, k: nat)
    requires IsRun(plans, states, who) && k < |states|
    ensures ValidState(plans, states[k])
    ensures Left(plans, states[k]) + k == Left(plans, Start(plans))
  {
    ReachableExclusive(plans, states, who, 0);
    if k > 0 {
      RunLeft(plans, states, who, k - 1);
      AdvanceLeft(plans, states[k - 1], who[k - 1]);
    }
  }

  /** Deadlock freedom: whatever the interleaving, no row is ever locked twice, a run that is not
      over can go on, no run is longer than the locks and commits in it, and one of that length
      has ended every writer. */
  lemma EveryRunFinishes(less: Order, plans: seq<seq<Resource>>, states: seq<State>, who: seq<nat>)
    requires StrictTotal(less) && forall p | p in plans :: Sorted(less, p)
    requires IsRun(plans, states, who)
    ensures var s := states[|who|];
      && ValidState(plans, s) && Exclusive(plans, s)
      && |who| <= Left(plans, Start(plans))
      && ((exists i | 0 <= i < |s| :: CanStep(plans, s, i)) <==> |who| < Left(plans, Start(plans)))
      && (|who| == Left(plans, Start(plans)) ==> forall i | 0 <= i < |s| :: Ended(plans, s, i))
  {
    var s := states[|who|];
    ReachableExclusive(plans, states, who, |who|);
    RunLeft(plans, states, who, |who|);
    if Left(plans, s) == 0 {
      forall i | 0 <= i < |s| ensures Ended(plans, s, i) { NothingLeft(plans, s, i); }
    } else {
      var u := Unfinished(plans, s);
      var i := SomeoneCanStep(less, plans, s, u);
    }
  }

  lemma {:induction false} Unfinished(plans: seq<seq<Resource>>, s: State) returns (i: nat)
    requires ValidState(plans, s) && Left(plans, s) > 0
    ensures i < |s| && !Ended(plans, s, i)
  {
    if s[0] < |plans[0]| + 1 { return 0; }
    i := Unfinished(plans[1..], s[1..]);
    i := i + 1;
  }

  // ----- Why the order matters -----

  /** Locking sender then receiver, opposite transfers block each other after one lock each. */
  lemma OppositeOrderDeadlocks(a: Address, b: Address) returns (s: State)
    requires a != b
    ensures var plans := [[AccountKey(a), AccountKey(b)], [AccountKey(b), AccountKey(a)]];
      && ValidState(plans, s) && s == [1, 1]
      && IsRun(plans, [Start(plans), [1, 0], s], [0, 1])
      && WaitCycle(plans, s, [0, 1]) && !CanStep(plans, s, 0) && !CanStep(plans, s, 1)
  {
    s := [1, 1];
    var plans := [[AccountKey(a), AccountKey(b)], [AccountKey(b), AccountKey(a)]];
    CrossedDeadlock(plans, a, b);
  }

  lemma CrossedDeadlock(plans: seq<seq<Resource>>, a: Address, b: Address)
    requires a != b && |plans| == 2 && |plans[0]| >= 2 && |plans[1]| >= 2
    requires plans[0][0] == AccountKey(a) && plans[0][1] == AccountKey(b)
    requires plans[1][0] == AccountKey(b) && plans[1][1] == AccountKey(a)
    ensures ValidState(plans, [1, 1]) && IsRun(plans, [Start(plans), [1, 0], [1, 1]], [0, 1])
    ensures WaitCycle(plans, [1, 1], [0, 1]) && !CanStep(plans, [1, 1], 0) && !CanStep(plans, [1, 1], 1)
  {
    var s0, s1, s2 := Start(plans), [1, 0], [1, 1];
    assert s0 == [0, 0];
    assert Advance(s0, 0) == s1 && Advance(s1, 1) == s2;
    assert plans[0][..1] == [AccountKey(a)] && plans[1][..1] == [AccountKey(b)];
    assert Waits(plans, s2, 0, 1) && Waits(plans, s2, 1, 0);
  }

  /** The account rows of SaveBlock: the created contracts are a second batch, and rows already held
      cost nothing. The transaction rows it locks besides, in list order, are not part of the plan. */
  function TwoBatchPlan(less: Order, first: seq<Address>, second: seq<Address>): seq<Resource> {
    Accounts(LockOrder(less, first)) + Accounts(NewOnes(LockOrder(less, second), first))
  }

  function NewOnes(list: seq<Address>, held: seq<Address>): seq<Address> {
    if list == [] then []
    else if list[0] in held then NewOnes(list[1..], held)
    else [list[0]] + NewOnes(list[1..], held)
  }

  lemma {:induction false} NewOnesFacts(less: Order, list: seq<Address>, held: seq<Address>)
    requires Increasing(less, list)
    ensures Increasing(less, NewOnes(list, held))
    ensures forall x :: x in NewOnes(list, held) <==> x in list && x !in held
  {
    if list != [] {
      NewOnesFacts(less, list[1..], held);
      assert forall x :: x in list <==> x == list[0] || x in list[1..];
      forall x | x in list[1..] ensures less(list[0], x) {
        var i :| 0 <= i < |list[1..]| && list[1..][i] == x;
        assert list[i + 1] == x;
      }
    }
  }

  /** The two batches together are in lock order exactly when every new created contract
      comes after every participant. */
  lemma TwoBatchesSorted(less: Order, first: seq<Address>, second: seq<Address>)
    requires StrictTotal(less)
    ensures Sorted(less, TwoBatchPlan(less, first, second)) <==>
      forall a, c | a in first && a != "" && c in second && c != "" && c !in first :: less(a, c)
  {
    var xs, ys := LockOrder(less, first), NewOnes(LockOrder(less, second), first);
    LockOrderSorted(less, first);
    LockOrderSorted(less, second);
    NewOnesFacts(less, LockOrder(less, second), first);
    var plan := TwoBatchPlan(less, first, second);
    if Sorted(less, plan) {
      forall a, c | a in xs && c in ys ensures less(a, c) {
        var i :| 0 <= i < |xs| && xs[i] == a;
        var j :| 0 <= j < |ys| && ys[j] == c;
        assert plan[i] == AccountKey(a) && plan[|xs| + j] == AccountKey(c);
      }
    }
    if forall a, c | a in xs && c in ys :: less(a, c) {
      forall i, j | 0 <= i < j < |plan| ensures Precedes(less, plan[i], plan[j]) {
        if i < |xs| && j >= |xs| { assert xs[i] in xs && ys[j - |xs|] in ys; }
      }
    }
  }

  /** The block's account rows beside any number of pending transactions. */
  function WithPending(less: Order, plan: seq<Resource>, txs: seq<Tx>): seq<seq<Resource>> {
    [plan] + seq(|txs|, i requires 0 <= i < |txs| => SaveTransactionPlan(less, txs[i]))
  }

  /** A run that ends with writers waiting for each other in a circle. */
  ghost predicate Deadlocks(plans: seq<seq<Resource>>, states: seq<State>, who: seq<nat>, cycle: seq<nat>) {
    && IsRun(plans, states, who)
    && ValidState(plans, states[|who|]) && WaitCycle(plans, states[|who|], cycle)
  }

  ghost predicate CanDeadlock(less: Order, plan: seq<Resource>) {
    exists txs, states, who, cycle :: Deadlocks(WithPending(less, plan, txs), states, who, cycle)
  }

  /** A new created contract sorts before a participant. */
  ghost predicate Inverted(less: Order, first: seq<Address>, second: seq<Address>, a: Address, c: Address) {
    a in first && a != "" && c in second && c != "" && c !in first && less(c, a)
  }

  lemma SortedCannotDeadlock(less: Order, plan: seq<Resource>)
    requires StrictTotal(less) && Sorted(less, plan)
    ensures !CanDeadlock(less, plan)
  {
    forall txs, states, who, cycle ensures !Deadlocks(WithPending(less, plan, txs), states, who, cycle) {
      PendingSorted(less, plan, txs);
      SortedNeverDeadlock(less, WithPending(less, plan, txs), states, who, cycle);
    }
  }

  lemma PendingSorted(less: Order, plan: seq<Resource>, txs: seq<Tx>)
    requires StrictTotal(less) && Sorted(less, plan)
    ensures forall p | p in WithPending(less, plan, txs) :: Sorted(less, p)
  {
    var plans := WithPending(less, plan, txs);
    forall i | 0 <= i < |plans| ensures Sorted(less, plans[i]) {
      if i > 0 { SaveTransactionPlanSorted(less, txs[i - 1]); }
    }
  }

  lemma SortedNeverDeadlock(
    less: Order, plans: seq<seq<Resource>>, states: seq<State>, who: seq<nat>, cycle: seq<nat>)
    requires StrictTotal(less) && forall p | p in plans :: Sorted(less, p)
    ensures !Deadlocks(plans, states, who, cycle)
  {
    if IsRun(plans, states, who) && ValidState(plans, states[|who|]) { NoWaitCycle(less, plans, states[|who|], cycle); }
  }

  /** The first place at which the block takes the contract's row: after all its participants. */
  lemma PlaceOfContract(less: Order, first: seq<Address>, second: seq<Address>, a: Address, c: Address) returns (m: nat)
    requires StrictTotal(less) && Inverted(less, first, second, a, c)
    ensures var plan := TwoBatchPlan(less, first, second);
      && m < |plan| && plan[m] == AccountKey(c) && AccountKey(c) !in plan[..m] && AccountKey(a) in plan[..m]
  {
    var xs, ys := LockOrder(less, first), NewOnes(LockOrder(less, second), first);
    LockOrderSorted(less, first);
    LockOrderSorted(less, second);
    NewOnesFacts(less, LockOrder(less, second), first);
    var plan := TwoBatchPlan(less, first, second);
    var j :| 0 <= j < |ys| && ys[j] == c;
    m := |xs| + j;
    forall i | 0 <= i < m ensures plan[i] != AccountKey(c) {
      if i >= |xs| { assert less(ys[i - |xs|], ys[j]); }
    }
    var i :| 0 <= i < |xs| && xs[i] == a;
    assert plan[..m][i] == AccountKey(a);
  }

  ghost predicate Crossed(plans: seq<seq<Resource>>, m: nat, a: Address, c: Address) {
    && |plans| == 2 && m < |plans[0]| && plans[0][m] == AccountKey(c)
    && AccountKey(c) !in plans[0][..m] && AccountKey(a) in plans[0][..m]
    && |plans[1]| >= 2 && plans[1][0] == AccountKey(c) && plans[1][1] == AccountKey(a)
  }

  /** Step k: the pending transaction first, then the block. */
  function CrossState(k: nat): State { if k == 0 then [0, 0] else [k - 1, 1] }

  function CrossWho(k: nat): nat { if k == 0 then 1 else 0 }

  lemma CrossStep(plans: seq<seq<Resource>>, m: nat, a: Address, c: Address, k: nat)
    requires Crossed(plans, m, a, c) && k <= m
    ensures ValidState(plans, CrossState(k)) && CanStep(plans, CrossState(k), CrossWho(k))
    ensures CrossState(k + 1) == Advance(CrossState(k), CrossWho(k))
  {
    assert plans[1][..1] == [AccountKey(c)];
    if k > 0 { assert plans[0][k - 1] == plans[0][..m][k - 1]; }
  }

  lemma CrossCycle(plans: seq<seq<Resource>>, m: nat, a: Address, c: Address)
    requires Crossed(plans, m, a, c)
    ensures ValidState(plans, [m, 1]) && WaitCycle(plans, [m, 1], [0, 1])
  {
    assert plans[1][..1] == [AccountKey(c)];
    assert Waits(plans, [m, 1], 0, 1) && Waits(plans, [m, 1], 1, 0);
  }

  /** The pending transaction takes c, the block runs up to c, and each waits for the other. */
  lemma CrossAt(plans: seq<seq<Resource>>, m: nat, a: Address, c: Address) returns (states: seq<State>, who: seq<nat>)
    requires Crossed(plans, m, a, c)
    ensures Deadlocks(plans, states, who, [0, 1])
  {
    states := seq(m + 2, k requires 0 <= k < m + 2 => CrossState(k));
    who := seq(m + 1, k requires 0 <= k < m + 1 => CrossWho(k));
    forall k | 0 <= k < |who|
      ensures ValidState(plans, states[k]) && CanStep(plans, states[k], who[k])
      ensures states[k + 1] == Advance(states[k], who[k])
    {
      CrossStep(plans, m, a, c, k);
    }
    assert states[0] == Start(plans);
    CrossCycle(plans, m, a, c);
  }

  lemma InvertedDeadlocks(less: Order, first: seq<Address>, second: seq<Address>, a: Address, c: Address)
    requires StrictTotal(less) && Inverted(less, first, second, a, c)
    ensures CanDeadlock(less, TwoBatchPlan(less, first, second))
  {
    var tx := Tx("", c, a, Payload(0, 0, 0, None, 0, 0, []), 0, "");
    assert LockOrder(less, [c, a][1..]) == [a];
    assert LockOrder(less, [c, a]) == [c, a];
    var plans := WithPending(less, TwoBatchPlan(less, first, second), [tx]);
    var m := PlaceOfContract(less, first, second, a, c);
    var states, who := CrossAt(plans, m, a, c);
  }

  /** A block and some pending transactions can deadlock on account rows if and only if a new created
      contract of the block sorts before one of its participants. */
  lemma BlockDeadlocksIff(less: Order, first: seq<Address>, second: seq<Address>)
    requires StrictTotal(less)
    ensures CanDeadlock(less, TwoBatchPlan(less, first, second)) <==>
      exists a, c :: Inverted(less, first, second, a, c)
  {
    if a, c :| Inverted(less, first, second, a, c) {
      InvertedDeadlocks(less, first, second, a, c);
    } else {
      forall a, c | a in first && a != "" && c in second && c != "" && c !in first ensures less(a, c) {
        assert !Inverted(less, first, second, a, c);
      }
      TwoBatchesSorted(less, first, second);
      SortedCannotDeadlock(less, TwoBatchPlan(less, first, second));
    }
  }
}
