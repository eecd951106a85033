/** Block ingestion: which blocks the head loop fetches, and what it hands to the store. */
module Blocks {
  import opened Prelude
  import opened Schema
  import opened Ledger
  import opened LedgerInvariant
  import opened TransferTable
  import Reorg

  // ----- The head loop -----

  const MAX_BACKFILL: nat := 32

  /** Heights are uint64: sums and differences wrap. */
  const U64: nat := 0x1_0000_0000_0000_0000

  function Wrap(x: int): nat { x % U64 }

  /** The first height fetched for a head, after one at `last` (0 before the first head). */
  function Start(last: nat, number: nat): nat {
    if last != 0 && number > Wrap(last + 1)
    then Max(Wrap(last + 1), Wrap(number - MAX_BACKFILL + 1))
    else number
  }

  /** How fetching and saving one height ends; Stopped means the context had ended before it. */
  datatype Ending = Saved | Broken | Stopped

  type World = (nat, nat) -> Ending

  /** One fetch. The head's own block is fetched by hash, the others by number. */
  datatype Fetch = Fetch(height: nat, byHash: bool, saved: bool)

  /** What the k-th head fetches from height n on: up to its own height, or the first failure. */
  function Fetches(world: World, k: nat, n: nat, number: nat): seq<Fetch>
    decreases number - n
  {
    if n > number || world(k, n).Stopped? then []
    else if world(k, n).Broken? then [Fetch(n, n == number, false)]
    else [Fetch(n, n == number, true)] + Fetches(world, k, n + 1, number)
  }

  /** The head before the k-th, where `before` came before them all. */
  function LastHead(before: nat, heads: seq<nat>, k: nat): nat
    requires k <= |heads|
  {
    if k == 0 then before else heads[k - 1]
  }

  /** Everything head k fetches. Past the largest uint64 the height wraps around to 0. */
  function HeadFetches(world: World, k: nat, start: nat, number: nat): seq<Fetch> {
    Fetches(world, k, start, number) +
    if Wraps(world, k, start, number) then Fetches(world, k, 0, number) else []
  }

  predicate Wraps(world: World, k: nat, start: nat, number: nat) {
    start <= number == U64 - 1 && Reached(world, k, start, number) > number
  }

  /** Every fetch of the first k heads. */
  function Log(before: nat, heads: seq<nat>, world: World, k: nat): seq<Fetch>
    requires k <= |heads|
  {
    if k == 0 then []
    else
      var last, number := LastHead(before, heads, k - 1), heads[k - 1];
      Log(before, heads, world, k - 1) + HeadFetches(world, k - 1, Start(last, number), number)
  }

  /** The inner loop ends: at the largest uint64 only a failure or a stop ends it. */
  ghost predicate Ends(world: World, k: nat, number: nat) {
    number < U64 && (number == U64 - 1 ==> exists n | 0 <= n < U64 :: world(k, n) != Saved)
  }

  /** Fetching height n next, in the second round once the height has wrapped around. */
  ghost predicate Fetching(
    world: World, k: nat, start: nat, number: nat, before: seq<Fetch>, n: nat, wrapped: bool, log: seq<Fetch>)
  {
    && (n == start || n < U64) && (wrapped || start <= n) && (wrapped ==> Wraps(world, k, start, number))
    && (forall m | (if wrapped then 0 else start) <= m < n :: world(k, m) == Saved)
    && log + Fetches(world, k, n, number) ==
         before + if wrapped then Fetches(world, k, start, number) + Fetches(world, k, 0, number)
                  else Fetches(world, k, start, number)
  }

  lemma FetchedOne(
    world: World, k: nat, start: nat, number: nat, before: seq<Fetch>, n: nat, wrapped: bool, log: seq<Fetch>)
    requires Fetching(world, k, start, number, before, n, wrapped, log)
    requires n <= number < U64 && world(k, n) == Saved && n + 1 < U64
    ensures Fetching(world, k, start, number, before, n + 1, wrapped, log + [Fetch(n, n == number, true)])
  {
    FetchesFirst(world, k, n, number, log);
  }

  lemma FetchesFirst(world: World, k: nat, n: nat, number: nat, log: seq<Fetch>)
    requires n <= number && world(k, n) == Saved
    ensures log + [Fetch(n, n == number, true)] + Fetches(world, k, n + 1, number) == log + Fetches(world, k, n, number)
  {
    assert Fetches(world, k, n, number) == [Fetch(n, n == number, true)] + Fetches(world, k, n + 1, number);
  }

  /** The largest uint64 is followed by 0, once. */
  lemma FetchedTop(
    world: World, k: nat, start: nat, number: nat, before: seq<Fetch>, n: nat, wrapped: bool, log: seq<Fetch>)
    requires Fetching(world, k, start, number, before, n, wrapped, log) && Ends(world, k, number)
    requires n == number == U64 - 1 && world(k, n) == Saved
    ensures !wrapped && Fetching(world, k, start, number, before, 0, true, log + [Fetch(n, true, true)])
  {
    var more := log + [Fetch(n, true, true)];
    assert Fetches(world, k, n, number) == [Fetch(n, true, true)] + [];
    assert more == before + Fetches(world, k, start, number);
    assert more + Fetches(world, k, 0, number) ==
      before + (Fetches(world, k, start, number) + Fetches(world, k, 0, number));
  }

  lemma FetchedLast(
    world: World, k: nat, start: nat, number: nat, before: seq<Fetch>, n: nat, wrapped: bool, log: seq<Fetch>)
    requires Fetching(world, k, start, number, before, n, wrapped, log) && number < U64
    requires n > number || world(k, n) != Saved
    ensures log + Fetches(world, k, n, number) == before + HeadFetches(world, k, start, number)
  {
    if !wrapped && n <= number { assert Reached(world, k, start, number) <= n; }
    assert !wrapped ==> !Wraps(world, k, start, number);
    assert Fetches(world, k, start, number) + [] == Fetches(world, k, start, number);
  }

  /** The inner loop: one head, from height `start` on. */
  method FetchHead(k: nat, start: nat, number: nat, world: World, before: seq<Fetch>) returns (log: seq<Fetch>)
    requires Ends(world, k, number)
    ensures log == before + HeadFetches(world, k, start, number)
  {
    log := before;
    var n: nat := start;
    ghost var wrapped := false;
    while n <= number && world(k, n) != Stopped
      invariant Fetching(world, k, start, number, before, n, wrapped, log)
      decreases !wrapped, number + 1 - n
    {
      if world(k, n) != Saved {
        FetchedLast(world, k, start, number, before, n, wrapped, log);
        log := log + [Fetch(n, n == number, false)];
        return;
      }
      if n + 1 < U64 {
        FetchedOne(world, k, start, number, before, n, wrapped, log);
      } else {
        FetchedTop(world, k, start, number, before, n, wrapped, log);
      }
      log := log + [Fetch(n, n == number, true)];
      wrapped := wrapped || n + 1 == U64;
      n := Wrap(n + 1);
    }
    FetchedLast(world, k, start, number, before, n, wrapped, log);
    assert log + [] == log;
  }

  /** runBlocks. */
  method RunBlocks(heads: seq<nat>, world: World) returns (log: seq<Fetch>)
    requires forall i | 0 <= i < |heads| :: Ends(world, i, heads[i])
    ensures log == Log(0, heads, world, |heads|)
  {
    log := [];
    var last: nat := 0;
    for k := 0 to |heads|
      invariant last == LastHead(0, heads, k) && log == Log(0, heads, world, k)
    {
      var number := heads[k];
      var start := number;
      if last != 0 && number > Wrap(last + 1) {
        start := Max(Wrap(last + 1), Wrap(number - MAX_BACKFILL + 1));
      }
      assert start == Start(last, number);
      log := FetchHead(k, start, number, world, log);
      last := number;
    }
  }

  // ----- Which heights are ingested -----

  predicate Height(n: nat) { n < U64 - 1 }

  /** A head fetches consecutive heights upwards, at most 32 of them; only the last may fail, and
      without a failure or a stop they reach the head's own. */
  lemma {:induction false} FetchesAscend(world: World, k: nat, n: nat, number: nat, i: nat)
    requires i < |Fetches(world, k, n, number)|
    ensures Fetches(world, k, n, number)[i] == Fetch(n + i, n + i == number, world(k, n + i) == Saved)
    ensures n + i <= number
    ensures i + 1 < |Fetches(world, k, n, number)| ==> world(k, n + i) == Saved
    decreases i
  {
    if i > 0 { FetchesAscend(world, k, n + 1, number, i - 1); }
  }

  /** The first height from n on that the head does not save. */
  function Reached(world: World, k: nat, n: nat, number: nat): (r: nat)
    ensures n <= r && (n <= number ==> r <= number + 1) && (n > number ==> r == n)
    ensures forall i | n <= i < r :: world(k, i) == Saved
    ensures r <= number ==> world(k, r) != Saved
    decreases number - n
  {
    if n > number || world(k, n) != Saved then n else Reached(world, k, n + 1, number)
  }

  /** The heights saved, in order. */
  function SavedHeights(log: seq<Fetch>): seq<nat> {
    if log == [] then []
    else if log[0].saved then [log[0].height] + SavedHeights(log[1..])
    else SavedHeights(log[1..])
  }

  /** The heights from lo up to hi, hi excluded. */
  function Span(lo: nat, hi: nat): seq<nat>
    requires lo <= hi
  {
    if lo == hi then [] else Span(lo, hi - 1) + [hi - 1]
  }

  lemma {:induction false} SpanConcat(lo: nat, mid: nat, hi: nat)
    requires lo <= mid <= hi
    ensures Span(lo, mid) + Span(mid, hi) == Span(lo, hi)
  {
    if mid < hi {
      SpanConcat(lo, mid, hi - 1);
      assert Span(lo, mid) + (Span(mid, hi - 1) + [hi - 1]) == Span(lo, mid) + Span(mid, hi - 1) + [hi - 1];
    }
  }

  lemma {:induction false} InSpan(lo: nat, hi: nat, n: nat)
    requires lo <= hi
    ensures n in Span(lo, hi) <==> lo <= n < hi
  {
    if lo < hi { InSpan(lo, hi - 1, n); }
  }

  /** One head saves its heights up to the first failure. */
  lemma {:induction false} FetchesSave(world: World, k: nat, n: nat, number: nat)
    ensures SavedHeights(Fetches(world, k, n, number)) == Span(n, Reached(world, k, n, number))
    decreases number - n
  {
    if n <= number && world(k, n) == Saved {
      FetchesSave(world, k, n + 1, number);
      var rest := Fetches(world, k, n + 1, number);
      assert ([Fetch(n, n == number, true)] + rest)[1..] == rest;
      SpanConcat(n, n + 1, Reached(world, k, n, number));
      assert Span(n, n + 1) == [n];
    }
  }

  /** Where a head starts, below the largest uint64: at its own height if nothing was missed, and otherwise
      after the last head, but at most 31 heights back; below height 31 that bound is past its own height. */
  lemma StartExactly(last: nat, number: nat)
    requires last < 0xffff_ffff_ffff_ffff && number < 0xffff_ffff_ffff_ffff
    ensures Start(last, number) ==
      if last == 0 || number <= last + 1 then number
      else if number < 31 then number + 18_446_744_073_709_551_585
      else if number - last <= 32 then last + 1
      else number - 31
  {
  }

  /** A head saves its own block if and only if no earlier fetch of it fails and it is not the first
      above a gap below height 31: there the backfill bound wraps around and nothing at all is fetched.
      It never fetches more than 32 blocks. */
  lemma OwnBlockSaved(world: World, k: nat, last: nat, number: nat)
    requires Height(last) && Height(number)
    ensures
      var start := Start(last, number);
      && |Fetches(world, k, start, number)| <= 32
      && (start > number <==> last != 0 && number > last + 1 && number < 31)
      && (start > number ==> Fetches(world, k, start, number) == [])
      && (number in SavedHeights(Fetches(world, k, start, number)) <==>
          start <= number && forall n | start <= n <= number :: world(k, n) == Saved)
  {
    var start := Start(last, number);
    OwnHeightSaved(world, k, start, number);
    AtMost32(world, k, last, number);
  }

  lemma OwnHeightSaved(world: World, k: nat, start: nat, number: nat)
    ensures number in SavedHeights(Fetches(world, k, start, number)) <==>
      start <= number && forall n | start <= n <= number :: world(k, n) == Saved
  {
    FetchesSave(world, k, start, number);
    InSpan(start, Reached(world, k, start, number), number);
  }

  lemma AtMost32(world: World, k: nat, last: nat, number: nat)
    requires Height(last) && Height(number)
    ensures |Fetches(world, k, Start(last, number), number)| <= MAX_BACKFILL
  {
    var start := Start(last, number);
    if |Fetches(world, k, start, number)| > MAX_BACKFILL { FetchesAscend(world, k, start, number, MAX_BACKFILL); }
  }

  /** The heights between two heads are all asked for: nothing was missed, or at most 32 heights were
      and the bound did not wrap. */
  predicate Bridged(last: nat, number: nat) {
    number == last + 1 || (number - last <= 32 && number >= 31)
  }

  lemma BridgedExactly(last: nat, number: nat)
    requires 0 < last < number && Height(number)
    ensures Start(last, number) == last + 1 <==> Bridged(last, number)
    ensures Start(last, number) > last
  {
  }

  ghost predicate Ascending(heads: seq<nat>) {
    && (forall i | 0 <= i < |heads| :: 0 < heads[i] && Height(heads[i]))
    && (forall i, j | 0 <= i < j < |heads| :: heads[i] < heads[j])
  }

  /** The first head there is, the next one, or one at or below the last: a reorganisation. */
  predicate Joins(before: nat, number: nat) {
    Height(before) && (before == 0 || number <= before + 1)
  }

  /** The gap before head j, if it is not the first. */
  ghost predicate BridgedAt(heads: seq<nat>, j: nat)
    requires j < |heads|
  {
    j == 0 || Bridged(heads[j - 1], heads[j])
  }

  ghost predicate AllBridged(heads: seq<nat>) {
    forall j | 0 <= j < |heads| :: BridgedAt(heads, j)
  }

  function StartOf(before: nat, heads: seq<nat>, j: nat): nat
    requires j < |heads|
  {
    Start(LastHead(before, heads, j), heads[j])
  }

  function ReachOf(before: nat, heads: seq<nat>, world: World, j: nat): nat
    requires j < |heads|
  {
    Reached(world, j, StartOf(before, heads, j), heads[j])
  }

  /** Head j saves every height it asks for. */
  ghost predicate SavesAll(before: nat, heads: seq<nat>, world: World, j: nat)
    requires j < |heads|
  {
    forall n | StartOf(before, heads, j) <= n <= heads[j] :: world(j, n) == Saved
  }

  ghost predicate AllSaved(before: nat, heads: seq<nat>, world: World) {
    forall j | 0 <= j < |heads| :: SavesAll(before, heads, world, j)
  }

  lemma {:induction false} SavedConcat(a: seq<Fetch>, b: seq<Fetch>)
    ensures SavedHeights(a + b) == SavedHeights(a) + SavedHeights(b)
  {
    if a == [] {
      assert a + b == b;
    } else {
      SavedConcat(a[1..], b);
      assert (a + b)[1..] == a[1..] + b;
    }
  }

  // ----- Runs of heights, one per head -----

  /** Head j saves the heights from lo up to hi. */
  datatype Piece = Piece(lo: nat, hi: nat)

  function Joined(pieces: seq<Piece>, k: nat): seq<nat>
    requires k <= |pieces| && forall j | 0 <= j < k :: pieces[j].lo <= pieces[j].hi
  {
    if k == 0 then [] else Joined(pieces, k - 1) + Span(pieces[k - 1].lo, pieces[k - 1].hi)
  }

  /** The first height that is head j's own. */
  function Due(heads: seq<nat>, j: nat): nat
    requires j < |heads|
  {
    if j == 0 then heads[0] else heads[j - 1] + 1
  }

  ghost predicate Fits(heads: seq<nat>, p: Piece, j: nat)
    requires j < |heads|
  {
    Due(heads, j) <= p.lo <= p.hi && (p.lo == p.hi || p.hi <= heads[j] + 1)
  }

  /** Each head's piece lies among its own heights. */
  ghost predicate PiecesOf(heads: seq<nat>, pieces: seq<Piece>) {
    && |pieces| == |heads|
    && Ascending(heads)
    && forall j | 0 <= j < |heads| :: Fits(heads, pieces[j], j)
  }

  lemma DueRises(heads: seq<nat>, i: nat, j: nat)
    requires Ascending(heads) && i < j < |heads|
    ensures heads[i] < Due(heads, j)
  {
  }

  lemma {:induction false} InJoined(heads: seq<nat>, pieces: seq<Piece>, k: nat, j: nat, n: nat)
    requires PiecesOf(heads, pieces) && k <= |heads| && j < |heads| && Due(heads, j) <= n <= heads[j]
    ensures n in Joined(pieces, k) <==> j < k && pieces[j].lo <= n < pieces[j].hi
  {
    if k > 0 {
      InJoined(heads, pieces, k - 1, j, n);
      InSpan(pieces[k - 1].lo, pieces[k - 1].hi, n);
      assert Fits(heads, pieces[k - 1], k - 1);
      if k - 1 < j { DueRises(heads, k - 1, j); }
      if j < k - 1 { DueRises(heads, j, k - 1); }
    }
  }

  /** The piece starts where it is due and reaches its head. */
  ghost predicate WholeAt(heads: seq<nat>, p: Piece, j: nat)
    requires j < |heads|
  {
    p == Piece(Due(heads, j), heads[j] + 1)
  }

  /** Nothing is missing. */
  ghost predicate Whole(heads: seq<nat>, pieces: seq<Piece>, k: nat)
    requires k <= |heads| == |pieces|
  {
    forall j | 0 <= j < k :: WholeAt(heads, pieces[j], j)
  }

  lemma {:induction false} WholeJoined(heads: seq<nat>, pieces: seq<Piece>, k: nat)
    requires PiecesOf(heads, pieces) && k < |heads| && Whole(heads, pieces, k + 1)
    ensures heads[0] <= heads[k] && Joined(pieces, k + 1) == Span(heads[0], heads[k] + 1)
  {
    assert WholeAt(heads, pieces[k], k);
    if k == 0 {
      assert Joined(pieces, 0) == [];
    } else {
      WholeJoined(heads, pieces, k - 1);
      SpanConcat(heads[0], heads[k - 1] + 1, heads[k] + 1);
    }
  }

  lemma BrokenPiece(heads: seq<nat>, pieces: seq<Piece>, j: nat) returns (n: nat)
    requires PiecesOf(heads, pieces) && j < |heads| && !WholeAt(heads, pieces[j], j)
    ensures Due(heads, j) <= n <= heads[j] && n !in Joined(pieces, |heads|)
  {
    assert Fits(heads, pieces[j], j);
    n := if pieces[j].lo > Due(heads, j) then Due(heads, j) else pieces[j].hi;
    if j > 0 { assert heads[j - 1] < heads[j]; }
    InJoined(heads, pieces, |heads|, j, n);
  }

  lemma BetweenEnds(heads: seq<nat>, j: nat)
    requires Ascending(heads) && j < |heads|
    ensures heads[0] <= Due(heads, j) && heads[0] <= heads[j] <= heads[|heads| - 1]
  {
    if j > 0 { DueRises(heads, 0, j); }
    if j < |heads| - 1 { DueRises(heads, j, |heads| - 1); }
  }

  lemma BrokenIsMissing(heads: seq<nat>, pieces: seq<Piece>, j: nat)
    requires PiecesOf(heads, pieces) && j < |heads| && !WholeAt(heads, pieces[j], j)
    ensures heads[0] <= heads[|heads| - 1] && Joined(pieces, |heads|) != Span(heads[0], heads[|heads| - 1] + 1)
  {
    BetweenEnds(heads, j);
    var n := BrokenPiece(heads, pieces, j);
    InSpan(heads[0], heads[|heads| - 1] + 1, n);
  }

  lemma WholeExactly(heads: seq<nat>, pieces: seq<Piece>)
    requires PiecesOf(heads, pieces) && heads != []
    ensures heads[0] <= heads[|heads| - 1]
    ensures Joined(pieces, |heads|) == Span(heads[0], heads[|heads| - 1] + 1) <==> Whole(heads, pieces, |heads|)
  {
    BetweenEnds(heads, 0);
    if Whole(heads, pieces, |heads|) {
      WholeJoined(heads, pieces, |heads| - 1);
    } else {
      var j :| 0 <= j < |heads| && !WholeAt(heads, pieces[j], j);
      BrokenIsMissing(heads, pieces, j);
    }
  }

  predicate Rising(heights: seq<nat>) {
    forall i, j | 0 <= i < j < |heights| :: heights[i] < heights[j]
  }

  lemma {:induction false} RisingSpan(heights: seq<nat>, lo: nat, hi: nat)
    requires Rising(heights) && lo <= hi && forall n | n in heights :: n < lo
    ensures Rising(heights + Span(lo, hi))
    ensures forall n | n in heights + Span(lo, hi) :: n in heights || lo <= n < hi
  {
    if lo == hi {
      assert heights + Span(lo, hi) == heights;
    } else {
      RisingSpan(heights, lo, hi - 1);
      var sofar := heights + Span(lo, hi - 1);
      assert heights + Span(lo, hi) == sofar + [hi - 1];
      forall i | 0 <= i < |sofar| ensures sofar[i] < hi - 1 { assert sofar[i] in sofar; }
    }
  }

  lemma {:induction false} JoinedRises(heads: seq<nat>, pieces: seq<Piece>, k: nat)
    requires PiecesOf(heads, pieces) && k <= |heads|
    ensures Rising(Joined(pieces, k)) && forall n | n in Joined(pieces, k) :: k > 0 && n <= heads[k - 1]
  {
    if k > 0 {
      JoinedRises(heads, pieces, k - 1);
      assert Fits(heads, pieces[k - 1], k - 1);
      RisingSpan(Joined(pieces, k - 1), pieces[k - 1].lo, pieces[k - 1].hi);
    }
  }

  // ----- What a run of heads saves -----

  function PieceOf(before: nat, heads: seq<nat>, world: World, j: nat): Piece
    requires j < |heads|
  {
    Piece(StartOf(before, heads, j), ReachOf(before, heads, world, j))
  }

  function Pieces(before: nat, heads: seq<nat>, world: World): (pieces: seq<Piece>)
    ensures forall j | 0 <= j < |pieces| :: pieces[j].lo <= pieces[j].hi
  {
    seq(|heads|, j requires 0 <= j < |heads| => PieceOf(before, heads, world, j))
  }

  lemma SavedNext(before: nat, heads: seq<nat>, world: World, k: nat)
    requires 0 < k <= |heads| && Height(heads[k - 1])
    ensures var p := PieceOf(before, heads, world, k - 1);
      && p.lo <= p.hi
      && SavedHeights(Log(before, heads, world, k)) == SavedHeights(Log(before, heads, world, k - 1)) + Span(p.lo, p.hi)
  {
    var start := StartOf(before, heads, k - 1);
    FetchesSave(world, k - 1, start, heads[k - 1]);
    SavedConcat(Log(before, heads, world, k - 1), Fetches(world, k - 1, start, heads[k - 1]));
    assert HeadFetches(world, k - 1, start, heads[k - 1]) == Fetches(world, k - 1, start, heads[k - 1]);
  }

  ghost predicate AllHeights(heads: seq<nat>, k: nat)
    requires k <= |heads|
  {
    k == 0 || (Height(heads[k - 1]) && AllHeights(heads, k - 1))
  }

  lemma {:induction false} AscendingHeights(heads: seq<nat>, k: nat)
    requires Ascending(heads) && k <= |heads|
    ensures AllHeights(heads, k)
  {
    if k > 0 { AscendingHeights(heads, k - 1); }
  }

  lemma {:induction false} SavedIsJoined(before: nat, heads: seq<nat>, world: World, k: nat)
    requires k <= |heads| && AllHeights(heads, k)
    ensures SavedHeights(Log(before, heads, world, k)) == Joined(Pieces(before, heads, world), k)
  {
    if k > 0 {
      SavedIsJoined(before, heads, world, k - 1);
      SavedNext(before, heads, world, k);
      JoinedNext(before, heads, world, k);
    }
  }

  lemma JoinedNext(before: nat, heads: seq<nat>, world: World, k: nat)
    requires 0 < k <= |heads|
    ensures var p := PieceOf(before, heads, world, k - 1);
      && p.lo <= p.hi
      && Joined(Pieces(before, heads, world), k) == Joined(Pieces(before, heads, world), k - 1) + Span(p.lo, p.hi)
  {
  }

  /** Ascending heads ask for disjoint heights: each only for those after the head before it. */
  lemma PieceFits(before: nat, heads: seq<nat>, world: World, j: nat)
    requires Ascending(heads) && j < |heads| && Joins(before, heads[0])
    ensures Fits(heads, PieceOf(before, heads, world, j), j)
    ensures PieceOf(before, heads, world, j).lo == Due(heads, j) <==> BridgedAt(heads, j)
  {
    if j > 0 { BridgedExactly(heads[j - 1], heads[j]); }
  }

  lemma PiecesFit(before: nat, heads: seq<nat>, world: World)
    requires Ascending(heads) && (heads != [] ==> Joins(before, heads[0]))
    ensures PiecesOf(heads, Pieces(before, heads, world))
  {
    forall j | 0 <= j < |heads| ensures Fits(heads, Pieces(before, heads, world)[j], j) {
      PieceFits(before, heads, world, j);
    }
  }

  /** Heights lost after a failed fetch stay lost: neither the height that failed nor any later one of
      that head is saved in the whole run. */
  lemma FailureStays(before: nat, heads: seq<nat>, world: World, j: nat, m: nat, n: nat)
    requires Ascending(heads) && j < |heads| && Joins(before, heads[0])
    requires StartOf(before, heads, j) <= m <= n <= heads[j] && world(j, m) != Saved
    ensures n !in SavedHeights(Log(before, heads, world, |heads|))
  {
    PiecesFit(before, heads, world);
    PieceFits(before, heads, world, j);
    AscendingHeights(heads, |heads|);
    SavedIsJoined(before, heads, world, |heads|);
    InJoined(heads, Pieces(before, heads, world), |heads|, j, n);
  }

  lemma WholePiece(before: nat, heads: seq<nat>, world: World, j: nat)
    requires Ascending(heads) && j < |heads| && Joins(before, heads[0])
    ensures WholeAt(heads, PieceOf(before, heads, world, j), j) <==>
      BridgedAt(heads, j) && SavesAll(before, heads, world, j)
  {
    PieceFits(before, heads, world, j);
    if j > 0 { assert heads[j - 1] < heads[j]; }
  }

  /** Ascending heads ingest every height from the first head to the last, once each and in order, if
      and only if every gap between heads is bridged and no fetch fails or is stopped. */
  lemma HeadsSaveSpan(before: nat, heads: seq<nat>, world: World)
    requires Ascending(heads) && heads != [] && Joins(before, heads[0])
    ensures heads[0] <= heads[|heads| - 1]
    ensures SavedHeights(Log(before, heads, world, |heads|)) == Span(heads[0], heads[|heads| - 1] + 1)
      <==> AllBridged(heads) && AllSaved(before, heads, world)
  {
    PiecesFit(before, heads, world);
    AscendingHeights(heads, |heads|);
    SavedIsJoined(before, heads, world, |heads|);
    WholeExactly(heads, Pieces(before, heads, world));
    forall j | 0 <= j < |heads|
      ensures WholeAt(heads, Pieces(before, heads, world)[j], j) <==>
        BridgedAt(heads, j) && SavesAll(before, heads, world, j)
    {
      WholePiece(before, heads, world, j);
    }
  }

  function BlocksOf(served: nat -> MinedBlock, heights: seq<nat>): seq<MinedBlock> {
    seq(|heights|, i requires 0 <= i < |heights| => served(heights[i]))
  }

  lemma BranchOfHeights(served: nat -> MinedBlock, heights: seq<nat>)
    requires forall n: nat :: served(n).block.number == n
    requires Rising(heights)
    ensures var branch := BlocksOf(served, heights);
      && Reorg.Ascending(branch)
      && forall n :: n in Reorg.Heights(branch) <==> n in heights
  {
    var branch := BlocksOf(served, heights);
    assert forall i | 0 <= i < |branch| :: branch[i].block.number == heights[i];
    forall n | n in heights ensures n in Reorg.Heights(branch) {
      var i :| 0 <= i < |heights| && heights[i] == n;
      assert branch[i] in branch && branch[i].block.number == n;
    }
  }

  /** A reorganisation announced by ascending heads: once the blocks that could be fetched are saved in
      turn, among whatever the other writers do and with any retries, the mined/block_number table
      equals the old chain below the first of them continued by them, if and only if that chain has no
      transaction in two blocks and every old height from there on was fetched and saved. */
  lemma HeadsReplaceBranch(
    before: nat, heads: seq<nat>, world: World, served: nat -> MinedBlock, branch: seq<MinedBlock>,
    states: seq<Db>, ops: seq<Op>, chain: Reorg.Chain, newChain: Reorg.Chain)
    requires Ascending(heads) && heads != [] && Joins(before, heads[0])
    requires forall n: nat :: served(n).block.number == n
    requires branch == BlocksOf(served, SavedHeights(Log(before, heads, world, |heads|)))
    requires Reorg.SavesBranch(states, ops, branch) && Reorg.HashFixesTxs(chain, branch)
    requires Reorg.IsNewChain(chain, branch, newChain)
    requires Consistent(states[0]) && Reorg.Tracks(states[0], chain)
    ensures Reorg.Tracks(states[|ops|], newChain) <==>
      && Reorg.UniqueTxs(newChain)
      && forall n | n in chain && n >= branch[0].block.number :: n in SavedHeights(Log(before, heads, world, |heads|))
  {
    var saved := SavedHeights(Log(before, heads, world, |heads|));
    PiecesFit(before, heads, world);
    AscendingHeights(heads, |heads|);
    SavedIsJoined(before, heads, world, |heads|);
    JoinedRises(heads, Pieces(before, heads, world), |heads|);
    HeightsReplace(served, saved, branch, states, ops, chain, newChain);
  }

  lemma HeightsReplace(
    served: nat -> MinedBlock, heights: seq<nat>, branch: seq<MinedBlock>,
    states: seq<Db>, ops: seq<Op>, chain: Reorg.Chain, newChain: Reorg.Chain)
    requires Rising(heights)
    requires branch == BlocksOf(served, heights) && forall n: nat :: served(n).block.number == n
    requires Reorg.SavesBranch(states, ops, branch) && Reorg.HashFixesTxs(chain, branch)
    requires Reorg.IsNewChain(chain, branch, newChain)
    requires Consistent(states[0]) && Reorg.Tracks(states[0], chain)
    ensures Reorg.Tracks(states[|ops|], newChain) <==>
      Reorg.UniqueTxs(newChain) && forall n | n in chain && n >= branch[0].block.number :: n in heights
  {
    BranchOfHeights(served, heights);
    Reorg.BranchReplacement(states, ops, chain, branch, newChain);
  }

  // ----- What reaches SaveBlock -----

  /** A transaction of the block; sender is None when its signature gives none, and it is skipped. */
  datatype RawTx = RawTx(hash: Hash, sender: Option<Address>, to: Address, payload: Payload)

  datatype EventLog = EventLog(topics: seq<string>, data: seq<byte>, txHash: Hash, index: nat, address: Address)

  datatype RawReceipt = RawReceipt(
    txHash: Hash, gasUsed: nat, effectiveGasPrice: Option<nat>,
    contract: Address, status: nat, logs: seq<EventLog>)

  datatype RawBlock = RawBlock(header: Block, txs: seq<RawTx>)

  const SUCCESSFUL: nat := 1

  /** The address in the last 20 bytes of a topic, and the topic of Transfer events. */
  datatype Codec = Codec(addressOf: string -> Address, transferTopic: string)

  function BigEndian(data: seq<byte>): nat {
    if data == [] then 0 else 256 * BigEndian(data[..|data| - 1]) + data[|data| - 1] as nat
  }

  function DecodeTransfer(lg: EventLog, codec: Codec): Option<Transfer> {
    if |lg.topics| != 3 || lg.topics[0] != codec.transferTopic || |lg.data| != 32 then None
    else Some(Transfer(lg.txHash, lg.index, lg.address, codec.addressOf(lg.topics[1]),
                       codec.addressOf(lg.topics[2]), BigEndian(lg.data)))
  }

  function ToModel(raw: RawTx, minedAt: Time): Option<Tx> {
    if raw.sender.None? then None else Some(Tx(raw.hash, raw.sender.value, raw.to, raw.payload, minedAt, ""))
  }

  /** The transactions kept, in order. */
  function Kept(txs: seq<RawTx>, minedAt: Time): seq<Tx> {
    if txs == [] then []
    else
      var last := ToModel(txs[|txs| - 1], minedAt);
      Kept(txs[..|txs| - 1], minedAt) + (if last.Some? then [last.value] else [])
  }

  function Receipts(receipts: seq<RawReceipt>): map<Hash, Receipt> {
    if receipts == [] then map[]
    else
      var r := receipts[|receipts| - 1];
      Receipts(receipts[..|receipts| - 1])[r.txHash := Receipt(r.gasUsed, r.effectiveGasPrice, r.status)]
  }

  /** The contract the receipts name for a transaction, the last one winning. */
  function ContractFor(receipts: seq<RawReceipt>, h: Hash): Address {
    if receipts == [] then ""
    else
      var r := receipts[|receipts| - 1];
      if r.txHash == h && r.contract != "" then r.contract else ContractFor(receipts[..|receipts| - 1], h)
  }

  function DecodedLogs(logs: seq<EventLog>, codec: Codec): seq<Transfer> {
    if logs == [] then []
    else
      var last := DecodeTransfer(logs[|logs| - 1], codec);
      DecodedLogs(logs[..|logs| - 1], codec) + (if last.Some? then [last.value] else [])
  }

  /** The transfers of the successful receipts, in order. */
  function Decoded(receipts: seq<RawReceipt>, codec: Codec): seq<Transfer> {
    if receipts == [] then []
    else
      var r := receipts[|receipts| - 1];
      Decoded(receipts[..|receipts| - 1], codec) + (if r.status == SUCCESSFUL then DecodedLogs(r.logs, codec) else [])
  }

  /** Of transactions with one hash, the last is the one a receipt finds. */
  predicate IsLastOf(txs: seq<Tx>, i: nat)
    requires i < |txs|
  {
    forall j | i < j < |txs| :: txs[j].hash != txs[i].hash
  }

  function WithContract(txs: seq<Tx>, receipts: seq<RawReceipt>, i: nat): Tx
    requires i < |txs|
  {
    if txs[i].to == "" && IsLastOf(txs, i) then txs[i].(created := ContractFor(receipts, txs[i].hash)) else txs[i]
  }

  function WithContracts(txs: seq<Tx>, receipts: seq<RawReceipt>): seq<Tx> {
    seq(|txs|, i requires 0 <= i < |txs| => WithContract(txs, receipts, i))
  }

  function Gathered(raw: RawBlock, receipts: seq<RawReceipt>, codec: Codec): MinedBlock {
    MinedBlock(
      raw.header.(txCount := |raw.txs|),
      WithContracts(Kept(raw.txs, raw.header.minedAt), receipts),
      Receipts(receipts),
      Decoded(receipts, codec))
  }

  ghost predicate Indexes(byHash: map<Hash, nat>, txs: seq<Tx>) {
    && (forall h | h in byHash :: byHash[h] < |txs| && txs[byHash[h]].hash == h && IsLastOf(txs, byHash[h]))
    && (forall i | 0 <= i < |txs| :: txs[i].hash in byHash)
  }

  method KeepTransactions(raw: RawBlock) returns (txs: seq<Tx>, byHash: map<Hash, nat>)
    ensures txs == Kept(raw.txs, raw.header.minedAt) && Indexes(byHash, txs)
  {
    txs, byHash := [], map[];
    for i := 0 to |raw.txs|
      invariant txs == Kept(raw.txs[..i], raw.header.minedAt) && Indexes(byHash, txs)
    {
      assert raw.txs[..i + 1][..i] == raw.txs[..i];
      var tx := ToModel(raw.txs[i], raw.header.minedAt);
      if tx.None? { continue; }
      byHash := byHash[tx.value.hash := |txs|];
      txs := txs + [tx.value];
    }
    assert raw.txs[..|raw.txs|] == raw.txs;
  }

  lemma OneContractMore(kept: seq<Tx>, txs: seq<Tx>, earlier: seq<RawReceipt>, r: RawReceipt, byHash: map<Hash, nat>)
    requires Indexes(byHash, kept) && txs == WithContracts(kept, earlier)
    ensures WithContracts(kept, earlier + [r]) ==
      if r.contract != "" && r.txHash in byHash && kept[byHash[r.txHash]].to == ""
      then txs[byHash[r.txHash] := txs[byHash[r.txHash]].(created := r.contract)]
      else txs
  {
    assert (earlier + [r])[..|earlier|] == earlier;
    forall i | 0 <= i < |kept| && IsLastOf(kept, i) ensures byHash[kept[i].hash] == i {
      var j := byHash[kept[i].hash];
      assert kept[j].hash == kept[i].hash;
    }
  }

  lemma OneReceiptMore(receipts: seq<RawReceipt>, k: nat, codec: Codec)
    requires k < |receipts|
    ensures var r, before, after := receipts[k], receipts[..k], receipts[..k + 1];
      && after == before + [r]
      && Receipts(after) == Receipts(before)[r.txHash := Receipt(r.gasUsed, r.effectiveGasPrice, r.status)]
      && Decoded(after, codec) ==
           if r.status == SUCCESSFUL then Decoded(before, codec) + DecodedLogs(r.logs, codec)
           else Decoded(before, codec)
  {
    assert receipts[..k + 1][..k] == receipts[..k];
  }

  method DecodeLogs(logs: seq<EventLog>, codec: Codec) returns (transfers: seq<Transfer>)
    ensures transfers == DecodedLogs(logs, codec)
  {
    transfers := [];
    for i := 0 to |logs|
      invariant transfers == DecodedLogs(logs[..i], codec)
    {
      assert logs[..i + 1][..i] == logs[..i];
      var transfer := DecodeTransfer(logs[i], codec);
      if transfer.Some? { transfers := transfers + [transfer.value]; }
    }
    assert logs[..|logs|] == logs;
  }

  /** ingestBlock up to SaveBlock; receipts is whatever the node returned, even with an error. */
  method IngestBlock(raw: RawBlock, receipts: seq<RawReceipt>, codec: Codec) returns (mined: MinedBlock)
    ensures mined == Gathered(raw, receipts, codec)
    ensures IsGathered(mined, raw, receipts, codec)
  {
    mined := Gather(raw, receipts, codec);
    GatheredExactly(raw, receipts, codec);
  }

  /** The contract that a receipt names, if it names one of a transaction without a recipient. */
  method SetContract(
    before: seq<Tx>, byHash: map<Hash, nat>, r: RawReceipt, ghost kept: seq<Tx>, ghost earlier: seq<RawReceipt>)
    returns (txs: seq<Tx>)
    requires Indexes(byHash, kept) && before == WithContracts(kept, earlier)
    ensures txs == WithContracts(kept, earlier + [r])
  {
    OneContractMore(kept, before, earlier, r, byHash);
    txs := before;
    if r.contract != "" && r.txHash in byHash && txs[byHash[r.txHash]].to == "" {
      var i := byHash[r.txHash];
      txs := txs[i := txs[i].(created := r.contract)];
    }
  }

  method Gather(raw: RawBlock, receipts: seq<RawReceipt>, codec: Codec) returns (mined: MinedBlock)
    ensures mined == Gathered(raw, receipts, codec)
  {
    var txs, byHash := KeepTransactions(raw);
    ghost var kept := txs;
    var byReceipt: map<Hash, Receipt>, transfers: seq<Transfer> := map[], [];
    assert WithContracts(kept, []) == kept by {
      KeptHaveNoContract(raw.txs, raw.header.minedAt);
    }
    for k := 0 to |receipts|
      invariant txs == WithContracts(kept, receipts[..k])
      invariant byReceipt == Receipts(receipts[..k]) && transfers == Decoded(receipts[..k], codec)
    {
      var r := receipts[k];
      OneReceiptMore(receipts, k, codec);
      byReceipt := byReceipt[r.txHash := Receipt(r.gasUsed, r.effectiveGasPrice, r.status)];
      txs := SetContract(txs, byHash, r, kept, receipts[..k]);
      if r.status != SUCCESSFUL { continue; }
      var decoded := DecodeLogs(r.logs, codec);
      transfers := transfers + decoded;
    }
    assert receipts[..|receipts|] == receipts;
    mined := MinedBlock(raw.header.(txCount := |raw.txs|), txs, byReceipt, transfers);
  }

  lemma {:induction false} KeptHaveNoContract(txs: seq<RawTx>, minedAt: Time)
    ensures forall t | t in Kept(txs, minedAt) :: t.created == ""
  {
    if txs != [] { KeptHaveNoContract(txs[..|txs| - 1], minedAt); }
  }

  // ----- What the store can rely on -----

  /** A node answers with receipts of the block's transactions, each holding its own logs. */
  ghost predicate Honest(raw: RawBlock, receipts: seq<RawReceipt>) {
    && (forall r | r in receipts :: exists t | t in raw.txs :: t.hash == r.txHash)
    && (forall r, lg | r in receipts && lg in r.logs :: lg.txHash == r.txHash)
  }

  lemma {:induction false} DecodedLogsAre(logs: seq<EventLog>, codec: Codec, tt: Transfer)
    ensures tt in DecodedLogs(logs, codec) <==> exists lg | lg in logs :: DecodeTransfer(lg, codec) == Some(tt)
  {
    if logs != [] {
      var init, lg := logs[..|logs| - 1], logs[|logs| - 1];
      DecodedLogsAre(init, codec, tt);
      assert forall x :: x in logs <==> x in init || x == lg;
    }
  }

  lemma {:induction false} DecodedFrom(receipts: seq<RawReceipt>, codec: Codec, tt: Transfer)
    ensures tt in Decoded(receipts, codec) <==>
      exists r, lg :: r in receipts && r.status == SUCCESSFUL && lg in r.logs && DecodeTransfer(lg, codec) == Some(tt)
  {
    if receipts != [] {
      var init, r := receipts[..|receipts| - 1], receipts[|receipts| - 1];
      DecodedFrom(init, codec, tt);
      DecodedLogsAre(r.logs, codec, tt);
      assert forall x :: x in receipts <==> x in init || x == r;
    }
  }

  /** 256^n. */
  function Pow256(n: nat): nat { if n == 0 then 1 else 256 * Pow256(n - 1) }

  /** The first n bytes of a number of |data| bytes, each with the weight of its place. */
  function Weighed(data: seq<byte>, n: nat): nat
    requires n <= |data|
  {
    if n == 0 then 0 else Weighed(data, n - 1) + data[n - 1] as nat * Pow256(|data| - n)
  }

  lemma {:induction false} WeighedMore(data: seq<byte>, n: nat)
    requires n < |data|
    ensures Weighed(data, n) == 256 * Weighed(data[..|data| - 1], n)
  {
    if n > 0 { WeighedMore(data, n - 1); }
  }

  /** The number is the sum of its bytes, byte i times 256^(|data| - 1 - i). */
  lemma {:induction false} BigEndianWeighs(data: seq<byte>)
    ensures BigEndian(data) == Weighed(data, |data|)
  {
    if data != [] {
      BigEndianWeighs(data[..|data| - 1]);
      WeighedMore(data, |data| - 1);
    }
  }

  /** The log is an ERC-20 Transfer event, and tt what it says: topics 1 and 2 are the sender and the recipient,
      the 32 bytes of data the amount. */
  predicate Says(lg: EventLog, codec: Codec, tt: Transfer) {
    && |lg.topics| == 3 && lg.topics[0] == codec.transferTopic && |lg.data| == 32
    && tt.txHash == lg.txHash && tt.logIndex == lg.index && tt.token == lg.address
    && tt.from == codec.addressOf(lg.topics[1]) && tt.to == codec.addressOf(lg.topics[2])
    && tt.amount == Weighed(lg.data, 32)
  }

  lemma DecodesExactly(lg: EventLog, codec: Codec, tt: Transfer)
    ensures DecodeTransfer(lg, codec) == Some(tt) <==> Says(lg, codec, tt)
  {
    BigEndianWeighs(lg.data);
  }

  /** A transfer reaches the store exactly when some receipt of status 1 holds a log that says it. */
  lemma DecodedAre(receipts: seq<RawReceipt>, codec: Codec, tt: Transfer)
    ensures tt in Decoded(receipts, codec) <==>
      exists r, lg :: r in receipts && r.status == 1 && lg in r.logs && Says(lg, codec, tt)
  {
    DecodedFrom(receipts, codec, tt);
    forall lg ensures DecodeTransfer(lg, codec) == Some(tt) <==> Says(lg, codec, tt) { DecodesExactly(lg, codec, tt); }
  }

  /** The receipt is that of a successful transaction, and one of its logs says a transfer. */
  ghost predicate Emits(r: RawReceipt, codec: Codec) {
    r.status == 1 && exists lg, tt :: lg in r.logs && Says(lg, codec, tt)
  }

  /** Where a transfer comes from: log `log` of receipt `receipt`. */
  datatype Place = Place(receipt: nat, log: nat)

  predicate Before(p: Place, q: Place) { p.receipt < q.receipt || (p.receipt == q.receipt && p.log < q.log) }

  /** The log there belongs to a receipt of status 1, and says tt. */
  predicate SaidAt(receipts: seq<RawReceipt>, p: Place, codec: Codec, tt: Transfer) {
    && p.receipt < |receipts| && receipts[p.receipt].status == 1 && p.log < |receipts[p.receipt].logs|
    && Says(receipts[p.receipt].logs[p.log], codec, tt)
  }

  /** The transfers are those said at these places, which are all there are, in order. */
  ghost predicate SaidInOrder(receipts: seq<RawReceipt>, codec: Codec, transfers: seq<Transfer>, at: seq<Place>) {
    && |at| == |transfers|
    && (forall i | 0 <= i < |at| :: SaidAt(receipts, at[i], codec, transfers[i]))
    && (forall i, j | 0 <= i < j < |at| :: Before(at[i], at[j]))
    && (forall p, tt | SaidAt(receipts, p, codec, tt) :: p in at)
  }

  /** The logs of one receipt, up to its k-th. */
  ghost predicate SaidUpTo(r: RawReceipt, k: nat, n: nat, codec: Codec, transfers: seq<Transfer>, at: seq<Place>)
    requires k <= |r.logs|
  {
    && |at| == |transfers|
    && (forall i | 0 <= i < |at| :: at[i].receipt == n && at[i].log < k && Says(r.logs[at[i].log], codec, transfers[i]))
    && (forall i, j | 0 <= i < j < |at| :: at[i].log < at[j].log)
    && (forall l, tt | 0 <= l < k && Says(r.logs[l], codec, tt) :: Place(n, l) in at)
  }

  lemma {:induction false} LogsInOrder(r: RawReceipt, k: nat, n: nat, codec: Codec) returns (at: seq<Place>)
    requires k <= |r.logs|
    ensures SaidUpTo(r, k, n, codec, DecodedLogs(r.logs[..k], codec), at)
  {
    at := [];
    if k > 0 {
      at := LogsInOrder(r, k - 1, n, codec);
      assert r.logs[..k][..k - 1] == r.logs[..k - 1];
      var transfer := DecodeTransfer(r.logs[k - 1], codec);
      forall tt ensures transfer == Some(tt) <==> Says(r.logs[k - 1], codec, tt) {
        DecodesExactly(r.logs[k - 1], codec, tt);
      }
      if transfer.Some? { at := at + [Place(n, k - 1)]; }
    }
  }

  lemma MoreSaid(
    receipts: seq<RawReceipt>, codec: Codec, earlier: seq<Transfer>, before: seq<Place>,
    more: seq<Transfer>, at: seq<Place>)
    requires receipts != [] && SaidInOrder(receipts[..|receipts| - 1], codec, earlier, before)
    requires var n := |receipts| - 1;
      if receipts[n].status == 1 then SaidUpTo(receipts[n], |receipts[n].logs|, n, codec, more, at)
      else more == [] && at == []
    ensures SaidInOrder(receipts, codec, earlier + more, before + at)
  {
    var n, init, all := |receipts| - 1, receipts[..|receipts| - 1], before + at;
    forall i | 0 <= i < |all| ensures SaidAt(receipts, all[i], codec, (earlier + more)[i]) {
      if i < |before| { assert SaidAt(init, before[i], codec, earlier[i]); }
    }
    forall i, j | 0 <= i < j < |all| ensures Before(all[i], all[j]) {
      if i < |before| <= j { assert SaidAt(init, before[i], codec, earlier[i]); }
    }
    forall p, tt | SaidAt(receipts, p, codec, tt) ensures p in all {
      if p.receipt < n { assert SaidAt(init, p, codec, tt); } else { assert p == Place(n, p.log); }
    }
  }

  /** What reaches the store is, in order, what the logs of the successful receipts say, each once. */
  lemma {:induction false} DecodedInOrder(receipts: seq<RawReceipt>, codec: Codec) returns (at: seq<Place>)
    ensures SaidInOrder(receipts, codec, Decoded(receipts, codec), at)
  {
    at := [];
    if receipts != [] {
      var n := |receipts| - 1;
      var r := receipts[n];
      var before := DecodedInOrder(receipts[..n], codec);
      var more, logs := [], [];
      if r.status == SUCCESSFUL {
        logs := LogsInOrder(r, |r.logs|, n, codec);
        assert r.logs[..|r.logs|] == r.logs;
        more := DecodedLogs(r.logs, codec);
      }
      MoreSaid(receipts, codec, Decoded(receipts[..n], codec), before, more, logs);
      at := before + logs;
    }
  }

  /** The transaction as the store gets it; the contract it created comes from the receipts. */
  predicate IsModelOf(t: Tx, raw: RawTx, minedAt: Time) {
    && raw.sender == Some(t.from) && t.hash == raw.hash && t.to == raw.to && t.payload == raw.payload
    && t.timestamp == minedAt
  }

  /** The list holds the transactions at these places, which are all those with a sender, in order. */
  ghost predicate KeptInOrder(txs: seq<RawTx>, minedAt: Time, kept: seq<Tx>, at: seq<nat>) {
    && |at| == |kept|
    && (forall i | 0 <= i < |at| :: at[i] < |txs| && IsModelOf(kept[i], txs[at[i]], minedAt))
    && (forall i, j | 0 <= i < j < |at| :: at[i] < at[j])
    && (forall k | 0 <= k < |txs| && txs[k].sender.Some? :: k in at)
  }

  lemma {:induction false} KeptPlaces(txs: seq<RawTx>, minedAt: Time) returns (at: seq<nat>)
    ensures KeptInOrder(txs, minedAt, Kept(txs, minedAt), at)
  {
    at := [];
    if txs != [] {
      var init := txs[..|txs| - 1];
      at := KeptPlaces(init, minedAt);
      KeptNext(txs, minedAt, Kept(init, minedAt), Kept(txs, minedAt), at);
      if txs[|txs| - 1].sender.Some? { at := at + [|txs| - 1]; }
    }
  }

  lemma KeptNext(txs: seq<RawTx>, minedAt: Time, kept: seq<Tx>, more: seq<Tx>, at: seq<nat>)
    requires txs != [] && KeptInOrder(txs[..|txs| - 1], minedAt, kept, at)
    requires var last := ToModel(txs[|txs| - 1], minedAt); more == kept + if last.Some? then [last.value] else []
    ensures KeptInOrder(txs, minedAt, more, if txs[|txs| - 1].sender.Some? then at + [|txs| - 1] else at)
  {
    if txs[|txs| - 1].sender.Some? {
      KeptOne(txs, minedAt, kept, more, at, at + [|txs| - 1]);
    } else {
      assert more == kept;
      KeptNone(txs, minedAt, kept, at);
    }
  }

  lemma KeptNone(txs: seq<RawTx>, minedAt: Time, kept: seq<Tx>, at: seq<nat>)
    requires txs != [] && KeptInOrder(txs[..|txs| - 1], minedAt, kept, at) && txs[|txs| - 1].sender.None?
    ensures KeptInOrder(txs, minedAt, kept, at)
  {
    var init := txs[..|txs| - 1];
    forall i | 0 <= i < |at| ensures at[i] < |txs| && IsModelOf(kept[i], txs[at[i]], minedAt) {
      assert init[at[i]] == txs[at[i]];
    }
    forall k | 0 <= k < |txs| && txs[k].sender.Some? ensures k in at { assert init[k] == txs[k]; }
  }

  lemma KeptOne(txs: seq<RawTx>, minedAt: Time, kept: seq<Tx>, more: seq<Tx>, at: seq<nat>, places: seq<nat>)
    requires txs != [] && KeptInOrder(txs[..|txs| - 1], minedAt, kept, at) && places == at + [|txs| - 1]
    requires |more| == |kept| + 1 && more[..|kept|] == kept && IsModelOf(more[|kept|], txs[|txs| - 1], minedAt)
    ensures KeptInOrder(txs, minedAt, more, places)
  {
    var init := txs[..|txs| - 1];
    forall i | 0 <= i < |places| ensures places[i] < |txs| && IsModelOf(more[i], txs[places[i]], minedAt) {
      if i < |at| { assert init[at[i]] == txs[at[i]] && more[i] == kept[i]; }
    }
    forall k | 0 <= k < |txs| && txs[k].sender.Some? ensures k in places {
      if k < |init| { assert init[k] == txs[k] && k in at; } else { assert places[|at|] == k; }
    }
  }

  /** Receipt i is the last one of the transaction that names a contract. */
  ghost predicate NamedLast(receipts: seq<RawReceipt>, h: Hash, contract: Address, i: nat) {
    && i < |receipts| && receipts[i].txHash == h && receipts[i].contract == contract != ""
    && forall j | i < j < |receipts| && receipts[j].txHash == h :: receipts[j].contract == ""
  }

  /** The contract of a kept transaction: the one its receipts name last, if it has no recipient and is the
      last kept transaction of its hash, and otherwise none. */
  ghost predicate HasContract(txs: seq<Tx>, i: nat, receipts: seq<RawReceipt>)
    requires i < |txs|
  {
    if txs[i].to != "" || (exists j | i < j < |txs| :: txs[j].hash == txs[i].hash)
       || (forall r | r in receipts && r.txHash == txs[i].hash :: r.contract == "")
    then txs[i].created == ""
    else exists k: nat :: NamedLast(receipts, txs[i].hash, txs[i].created, k)
  }

  lemma {:induction false} NamedContract(receipts: seq<RawReceipt>, h: Hash, c: Address)
    requires c == ContractFor(receipts, h)
    ensures c == "" <==> forall r | r in receipts && r.txHash == h :: r.contract == ""
    ensures c != "" ==> exists k: nat :: NamedLast(receipts, h, c, k)
  {
    if receipts != [] {
      var init, r := receipts[..|receipts| - 1], receipts[|receipts| - 1];
      var before := ContractFor(init, h);
      NamedContract(init, h, before);
      assert forall x :: x in receipts <==> x in init || x == r;
      if r.txHash == h && r.contract != "" {
        assert NamedLast(receipts, h, c, |receipts| - 1);
      } else if c != "" {
        var k: nat :| NamedLast(init, h, c, k);
        assert NamedLast(receipts, h, c, k);
      }
    }
  }

  /** The transactions that reach the store: those with a sender, in order, each with its fields and the time
      of the block, and with the contract its receipts name. */
  lemma GatheredTransactions(raw: RawBlock, receipts: seq<RawReceipt>, codec: Codec) returns (at: seq<nat>)
    ensures var list := Gathered(raw, receipts, codec).transactions;
      && KeptInOrder(raw.txs, raw.header.minedAt, list, at)
      && forall i | 0 <= i < |list| :: HasContract(list, i, receipts)
  {
    at := KeptPlaces(raw.txs, raw.header.minedAt);
    KeptHaveNoContract(raw.txs, raw.header.minedAt);
    var kept := Kept(raw.txs, raw.header.minedAt);
    ContractsGiven(kept, receipts);
  }

  lemma ContractsGiven(kept: seq<Tx>, receipts: seq<RawReceipt>)
    requires forall t | t in kept :: t.created == ""
    ensures var list := WithContracts(kept, receipts);
      && |list| == |kept|
      && (forall i | 0 <= i < |list| :: list[i] == kept[i].(created := list[i].created))
      && forall i | 0 <= i < |list| :: HasContract(list, i, receipts)
  {
    var list := WithContracts(kept, receipts);
    assert forall i | 0 <= i < |list| :: list[i].hash == kept[i].hash && list[i].to == kept[i].to;
    forall i | 0 <= i < |list| ensures HasContract(list, i, receipts) {
      assert kept[i] in kept;
      assert IsLastOf(kept, i) <==> forall j | i < j < |list| :: list[j].hash != list[i].hash;
      NamedContract(receipts, kept[i].hash, ContractFor(receipts, kept[i].hash));
    }
  }

  /** Receipt i is the last one of the transaction, and rec holds its figures. */
  predicate IsReceiptOf(rec: Receipt, receipts: seq<RawReceipt>, h: Hash, i: nat) {
    && i < |receipts| && receipts[i].txHash == h && (forall j | i < j < |receipts| :: receipts[j].txHash != h)
    && rec.gasUsed == receipts[i].gasUsed && rec.effectiveGasPrice == receipts[i].effectiveGasPrice
    && rec.status == receipts[i].status
  }

  /** The receipts that reach the store: the last one of each transaction. */
  lemma {:induction false} ReceiptsAre(receipts: seq<RawReceipt>, h: Hash)
    ensures h in Receipts(receipts) <==> exists r | r in receipts :: r.txHash == h
    ensures h in Receipts(receipts) ==> exists i: nat :: IsReceiptOf(Receipts(receipts)[h], receipts, h, i)
  {
    if receipts != [] {
      var init, r := receipts[..|receipts| - 1], receipts[|receipts| - 1];
      ReceiptsAre(init, h);
      assert forall x :: x in receipts <==> x in init || x == r;
      if r.txHash == h {
        assert IsReceiptOf(Receipts(receipts)[h], receipts, h, |receipts| - 1);
      } else if h in Receipts(init) {
        var i: nat :| IsReceiptOf(Receipts(init)[h], init, h, i);
        assert IsReceiptOf(Receipts(receipts)[h], receipts, h, i);
      }
    }
  }

  /** What is handed to the store, from the block and the receipts alone: the header with the number of
      transactions of the block, those with a sender, in order and with their contracts, the last receipt of
      each, and what the logs of successful receipts say, in order. */
  ghost predicate IsGathered(mined: MinedBlock, raw: RawBlock, receipts: seq<RawReceipt>, codec: Codec) {
    && mined.block == raw.header.(txCount := |raw.txs|)
    && (exists at :: KeptInOrder(raw.txs, raw.header.minedAt, mined.transactions, at))
    && (forall i | 0 <= i < |mined.transactions| :: HasContract(mined.transactions, i, receipts))
    && (forall h :: h in mined.receipts <==> exists r | r in receipts :: r.txHash == h)
    && (forall h | h in mined.receipts :: exists i: nat :: IsReceiptOf(mined.receipts[h], receipts, h, i))
    && (exists at :: SaidInOrder(receipts, codec, mined.transfers, at))
  }

  lemma GatheredExactly(raw: RawBlock, receipts: seq<RawReceipt>, codec: Codec)
    ensures IsGathered(Gathered(raw, receipts, codec), raw, receipts, codec)
  {
    var kept := GatheredTransactions(raw, receipts, codec);
    var said := DecodedInOrder(receipts, codec);
    forall h ensures h in Receipts(receipts) <==> exists r | r in receipts :: r.txHash == h
      ensures h in Receipts(receipts) ==> exists i: nat :: IsReceiptOf(Receipts(receipts)[h], receipts, h, i)
    {
      ReceiptsAre(receipts, h);
    }
  }

  lemma {:induction false} KeptAre(txs: seq<RawTx>, minedAt: Time, h: Hash)
    ensures h in HashSet(Kept(txs, minedAt)) <==> exists t | t in txs :: t.hash == h && t.sender.Some?
  {
    if txs != [] {
      var init, t := txs[..|txs| - 1], txs[|txs| - 1];
      KeptAre(init, minedAt, h);
      assert forall x :: x in txs <==> x in init || x == t;
      var kept := Kept(init, minedAt);
      if t.sender.Some? {
        var tx := ToModel(t, minedAt).value;
        assert Kept(txs, minedAt) == kept + [tx];
        assert forall x :: x in kept + [tx] <==> x in kept || x == tx;
        assert HashSet(kept + [tx]) == HashSet(kept) + {t.hash};
      }
    }
  }

  lemma ContractsKeepHashes(txs: seq<Tx>, receipts: seq<RawReceipt>)
    ensures HashSet(WithContracts(txs, receipts)) == HashSet(txs)
  {
    var after := WithContracts(txs, receipts);
    forall h ensures h in HashSet(after) <==> h in HashSet(txs) {
      if h in HashSet(after) {
        var i :| 0 <= i < |after| && after[i].hash == h;
        assert txs[i].hash == h && txs[i] in txs;
      }
      if h in HashSet(txs) {
        var i :| 0 <= i < |txs| && txs[i].hash == h;
        assert after[i].hash == h && after[i] in after;
      }
    }
  }

  /** Every decoded transfer belongs to a transaction of its block if and only if no skipped
      transaction emits one. */
  lemma GatheredTransfersBelong(raw: RawBlock, receipts: seq<RawReceipt>, codec: Codec)
    requires Honest(raw, receipts)
    ensures TransfersBelong(Gathered(raw, receipts, codec)) <==>
      forall r | r in receipts && Emits(r, codec) :: exists t | t in raw.txs :: t.hash == r.txHash && t.sender.Some?
  {
    var mined := Gathered(raw, receipts, codec);
    var kept := Kept(raw.txs, raw.header.minedAt);
    ContractsKeepHashes(kept, receipts);
    forall h ensures h in HashSet(mined.transactions) <==> exists t | t in raw.txs :: t.hash == h && t.sender.Some? {
      KeptAre(raw.txs, raw.header.minedAt, h);
    }
    forall tt ensures tt in mined.transfers <==>
      exists r, lg :: r in receipts && r.status == 1 && lg in r.logs && Says(lg, codec, tt)
    {
      DecodedAre(receipts, codec, tt);
    }
    if TransfersBelong(mined) {
      forall r | r in receipts && Emits(r, codec) ensures r.txHash in HashSet(mined.transactions) {
        var lg, tt :| lg in r.logs && Says(lg, codec, tt);
        assert tt in mined.transfers;
      }
    }
  }

  /** Only a kept transaction without a recipient gets a created contract. */
  lemma CreatedHasNoRecipient(raw: RawBlock, receipts: seq<RawReceipt>, codec: Codec, t: Tx)
    requires t in Gathered(raw, receipts, codec).transactions && t.created != ""
    ensures t.to == "" && exists r | r in receipts :: r.txHash == t.hash && r.contract == t.created
  {
    var list := Gathered(raw, receipts, codec).transactions;
    var at := GatheredTransactions(raw, receipts, codec);
    var i :| 0 <= i < |list| && list[i] == t;
    assert HasContract(list, i, receipts);
  }
}
