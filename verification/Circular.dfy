/** Loop detection: the return-path query over the flow graph, and the evidence built from it. */
module Circular {
  import opened Prelude

  type Address = string

  datatype Kind = Eth | Token

  /** A :SENT or :TRANSFERRED relationship. */
  datatype Edge = Edge(from: Address, to: Address, kind: Kind, hash: string, logIndex: nat, at: Time)

  type Path = seq<Edge>

  const CIRCULAR_MAX_HOPS := 3
  const CIRCULAR_WINDOW: Time := 7 * 24 * HOUR

  function Clamp(v: int, lo: int, hi: int): int { Max(lo, Min(hi, v)) }

  // ----- The query -----

  predicate Chained(p: Path) {
    forall i | 0 <= i < |p| - 1 :: p[i].to == p[i + 1].from
  }

  /** Cypher never uses a relationship twice in one match. */
  predicate DistinctEdges(p: Path) {
    forall i, j | 0 <= i < j < |p| :: p[i] != p[j]
  }

  predicate InWindow(p: Path, since: Time, before: Time) {
    forall i | 0 <= i < |p| :: since <= p[i].at <= before
  }

  predicate TimeOrdered(p: Path) {
    forall i | 0 <= i < |p| - 1 :: p[i].at <= p[i + 1].at
  }

  /** MATCH p = (a)-[*1..hops]->(b) with its WHERE clause. */
  predicate Matches(graph: set<Edge>, a: Address, b: Address, since: Time, before: Time, hops: int, p: Path) {
    && 1 <= |p| <= hops
    && (forall i | 0 <= i < |p| :: p[i] in graph)
    && p[0].from == a && p[|p| - 1].to == b
    && Chained(p) && DistinctEdges(p)
    && InWindow(p, since, before) && TimeOrdered(p)
  }

  /** ORDER BY hops LIMIT 1: any shortest match, or nothing if there is no match. */
  ghost predicate IsAnswer(
    graph: set<Edge>, a: Address, b: Address, since: Time, before: Time, hops: int, answer: Option<Path>)
  {
    && (answer.None? ==> forall p :: !Matches(graph, a, b, since, before, hops, p))
    && (answer.Some? ==> Matches(graph, a, b, since, before, hops, answer.value))
    && (answer.Some? ==> forall p :: Matches(graph, a, b, since, before, hops, p) ==> |answer.value| <= |p|)
  }

  datatype Flow = Flow(path: seq<Address>, hashes: seq<string>, kinds: seq<Kind>, hops: nat)

  function ToFlow(p: Path): Flow
    requires p != []
  {
    Flow([p[0].from] + seq(|p|, i requires 0 <= i < |p| => p[i].to),
         seq(|p|, i requires 0 <= i < |p| => p[i].hash),
         seq(|p|, i requires 0 <= i < |p| => p[i].kind),
         |p|)
  }

  /** What FindReturnPath may return for a transfer from -> to. */
  ghost predicate IsReturnPath(
    graph: set<Edge>, from: Address, to: Address, since: Time, before: Time, maxHops: int, answer: Option<Path>)
  {
    if from == "" || to == "" || from == to || maxHops < 1 then answer.None?
    else IsAnswer(graph, to, from, since, before, Clamp(maxHops, 1, 4), answer)
  }

  /** Stored transfers from a to b, one after another and none twice, none earlier than the one before, all
      between `since` and `before`. */
  ghost predicate Leads(graph: set<Edge>, a: Address, b: Address, since: Time, before: Time, p: Path) {
    && |p| >= 1 && p[0].from == a && p[|p| - 1].to == b
    && (forall i | 0 <= i < |p| :: p[i] in graph && since <= p[i].at <= before)
    && (forall i | 0 < i < |p| :: p[i - 1].to == p[i].from && p[i - 1].at <= p[i].at)
    && forall i, j | 0 <= i < j < |p| :: p[i] != p[j]
  }

  lemma MatchesExactly(graph: set<Edge>, a: Address, b: Address, since: Time, before: Time, hops: int, p: Path)
    ensures Matches(graph, a, b, since, before, hops, p) <==> Leads(graph, a, b, since, before, p) && |p| <= hops
  {
    if Matches(graph, a, b, since, before, hops, p) {
      forall i | 0 < i < |p| ensures p[i - 1].to == p[i].from && p[i - 1].at <= p[i].at {
        var k := i - 1;
        assert p[k].to == p[k + 1].from && p[k].at <= p[k + 1].at;
      }
    }
    if Leads(graph, a, b, since, before, p) {
      forall i | 0 <= i < |p| - 1 ensures p[i].to == p[i + 1].from && p[i].at <= p[i + 1].at {
        var k := i + 1;
        assert p[k - 1].to == p[k].from && p[k - 1].at <= p[k].at;
      }
    }
  }

  /** The path is a chain of at most `hops` transfers, and as short as any. */
  ghost predicate ShortestChain(
    graph: set<Edge>, a: Address, b: Address, since: Time, before: Time, hops: int, answer: Option<Path>)
  {
    && (answer.Some? ==> Leads(graph, a, b, since, before, answer.value) && |answer.value| <= hops)
    && forall p | Leads(graph, a, b, since, before, p) && |p| <= hops :: answer.Some? && |answer.value| <= |p|
  }

  lemma AnswerExactly(
    graph: set<Edge>, a: Address, b: Address, since: Time, before: Time, hops: int, answer: Option<Path>)
    requires IsAnswer(graph, a, b, since, before, hops, answer)
    ensures ShortestChain(graph, a, b, since, before, hops, answer)
  {
    if answer.Some? { MatchesExactly(graph, a, b, since, before, hops, answer.value); }
    forall p | Leads(graph, a, b, since, before, p) && |p| <= hops ensures answer.Some? && |answer.value| <= |p| {
      MatchesExactly(graph, a, b, since, before, hops, p);
      assert Matches(graph, a, b, since, before, hops, p);
    }
  }

  /** What FindReturnPath finds: a shortest chain back from `to` to `from`, of at most maxHops and at most four
      transfers, and nothing only if there is no such chain or the ends are not two addresses. */
  lemma ReturnPathExactly(
    graph: set<Edge>, from: Address, to: Address, since: Time, before: Time, maxHops: int, answer: Option<Path>)
    requires IsReturnPath(graph, from, to, since, before, maxHops, answer)
    ensures if from == "" || to == "" || from == to then answer.None?
            else ShortestChain(graph, to, from, since, before, if maxHops < 4 then maxHops else 4, answer)
  {
    if from != "" && to != "" && from != to && maxHops >= 1 {
      AnswerExactly(graph, to, from, since, before, Clamp(maxHops, 1, 4), answer);
    }
  }

  // ----- A shortest answer repeats no address -----

  /** The i-th address along the path. */
  function NodeAt(p: Path, i: nat): Address
    requires p != [] && i <= |p|
  {
    if i == 0 then p[0].from else p[i - 1].to
  }

  lemma {:induction false} OrderedAll(p: Path, i: nat, j: nat)
    requires TimeOrdered(p) && i <= j < |p|
    ensures p[i].at <= p[j].at
    decreases j
  {
    if i < j { OrderedAll(p, i, j - 1); }
  }

  /** Cutting the stretch between two visits of an address leaves a shorter match. */
  lemma CutCycle(
    graph: set<Edge>, a: Address, b: Address, since: Time, before: Time, hops: int, p: Path, i: nat, j: nat)
    requires Matches(graph, a, b, since, before, hops, p) && a != b
    requires i < j <= |p| && NodeAt(p, i) == NodeAt(p, j)
    ensures Matches(graph, a, b, since, before, hops, p[..i] + p[j..])
    ensures |p[..i] + p[j..]| < |p|
  {
    var q := p[..i] + p[j..];
    assert q != [];
    assert q[0].from == a;
    forall k | 0 <= k < |q| - 1 ensures q[k].to == q[k + 1].from && q[k].at <= q[k + 1].at {
      if k == i - 1 {
        OrderedAll(p, i - 1, j);
        assert p[j].from == NodeAt(p, j);
      }
    }
    forall k | 0 <= k < |q| ensures q[k] in graph && since <= q[k].at <= before {}
    CutIsDistinct(p, i, j);
  }

  lemma CutIsDistinct(p: Path, i: nat, j: nat)
    requires DistinctEdges(p) && i < j <= |p|
    ensures DistinctEdges(p[..i] + p[j..])
  {
    var q := p[..i] + p[j..];
    forall k, l | 0 <= k < l < |q| ensures q[k] != q[l] {
      var k', l' := if k < i then k else k - i + j, if l < i then l else l - i + j;
      assert q[k] == p[k'] && q[l] == p[l'] && k' < l';
    }
  }

  lemma ShortestIsSimple(
    graph: set<Edge>, a: Address, b: Address, since: Time, before: Time, hops: int, p: Path)
    requires IsAnswer(graph, a, b, since, before, hops, Some(p)) && a != b
    ensures forall i, j | 0 <= i < j <= |p| :: NodeAt(p, i) != NodeAt(p, j)
  {
    forall i, j | 0 <= i < j <= |p| ensures NodeAt(p, i) != NodeAt(p, j) {
      if NodeAt(p, i) == NodeAt(p, j) { CutCycle(graph, a, b, since, before, hops, p, i, j); }
    }
  }

  /** If there is a match at all, there is a shortest one. */
  lemma {:induction false} AnswerExists(
    graph: set<Edge>, a: Address, b: Address, since: Time, before: Time, hops: int, p: Path)
    returns (answer: Path)
    requires Matches(graph, a, b, since, before, hops, p)
    ensures IsAnswer(graph, a, b, since, before, hops, Some(answer))
    decreases |p|
  {
    if q :| Matches(graph, a, b, since, before, hops, q) && |q| < |p| {
      answer := AnswerExists(graph, a, b, since, before, hops, q);
    } else {
      answer := p;
    }
  }

  // ----- The detector -----

  datatype Severity = Low | Medium | High

  function CircularSeverity(transfers: int): Severity {
    if transfers <= 2 then Low else if transfers == 3 then High else Medium
  }

  datatype Flag = Flag(address: Address, severity: Severity, loop: Flow)

  /** The transfer whose arrival may close a loop. */
  datatype Closing = Closing(txHash: string, from: Address, to: Address, at: Time, kind: Kind)

  /** The closing transfer followed by the path back. */
  function LoopOf(t: Closing, p: Path): Flow
    requires p != []
  {
    var flow := ToFlow(p);
    Flow([t.from] + flow.path, [t.txHash] + flow.hashes, [t.kind] + flow.kinds, flow.hops + 1)
  }

  /** Evaluate, given what the return-path query answered. */
  function Evaluate(t: Closing, answer: Option<Path>): Option<Flag>
    requires answer.Some? ==> answer.value != []
  {
    if t.from == "" || t.to == "" || t.from == t.to || answer.None? then None
    else
      var loop := LoopOf(t, answer.value);
      Some(Flag(t.from, CircularSeverity(loop.hops), loop))
  }

  ghost predicate Answered(graph: set<Edge>, t: Closing, answer: Option<Path>) {
    IsReturnPath(graph, t.from, t.to, t.at - CIRCULAR_WINDOW, t.at, CIRCULAR_MAX_HOPS, answer)
  }

  /** A loop that starts and ends at `from`, whose first leg is the closing transfer, repeats no
      address in between, and is aligned leg by leg with a graph path back. */
  ghost predicate IsSimpleLoop(t: Closing, p: Path, loop: Flow) {
    && 2 <= loop.hops <= 4 && |loop.path| == loop.hops + 1
    && |loop.hashes| == loop.hops && |loop.kinds| == loop.hops
    && loop.path[0] == t.from && loop.path[1] == t.to && loop.path[loop.hops] == t.from
    && (forall i, j | 0 <= i < j < loop.hops :: loop.path[i] != loop.path[j])
    && loop.hashes[0] == t.txHash && loop.kinds[0] == t.kind
    && |p| == loop.hops - 1
    && forall i | 0 <= i < |p| ::
         && p[i].from == loop.path[i + 1] && p[i].to == loop.path[i + 2]
         && p[i].hash == loop.hashes[i + 1] && p[i].kind == loop.kinds[i + 1]
  }

  /** The loop holds the addresses, hashes and kinds of the path back, one place later. */
  ghost predicate Aligned(t: Closing, p: Path, loop: Flow)
    requires p != []
  {
    && loop.hops == |p| + 1 && |loop.path| == |p| + 2 && |loop.hashes| == |loop.kinds| == |p| + 1
    && loop.path[0] == t.from && loop.hashes[0] == t.txHash && loop.kinds[0] == t.kind
    && (forall i | 1 <= i <= |p| + 1 :: loop.path[i] == NodeAt(p, i - 1))
    && forall i | 1 <= i <= |p| :: loop.hashes[i] == p[i - 1].hash && loop.kinds[i] == p[i - 1].kind
  }

  lemma LoopIsAligned(t: Closing, p: Path)
    requires p != []
    ensures Aligned(t, p, LoopOf(t, p))
  {
  }

  ghost predicate SimplePath(p: Path)
    requires p != []
  {
    && (forall i, j | 0 <= i < j <= |p| :: NodeAt(p, i) != NodeAt(p, j))
    && forall i | 0 <= i < |p| :: p[i].from == NodeAt(p, i) && p[i].to == NodeAt(p, i + 1)
  }

  lemma AnsweredExactly(graph: set<Edge>, t: Closing, answer: Option<Path>, since: Time)
    requires Answered(graph, t, answer) && since == t.at - 604_800_000_000
    requires t.from != "" && t.to != "" && t.from != t.to
    ensures ShortestChain(graph, t.to, t.from, since, t.at, 3, answer)
  {
    assert since == t.at - CIRCULAR_WINDOW;
    AnswerExactly(graph, t.to, t.from, since, t.at, 3, answer);
  }

  /** Any chain back is as long as the answer. */
  lemma BackAtLeast(graph: set<Edge>, t: Closing, answer: Option<Path>, q: Path)
    requires Answered(graph, t, answer) && t.from != "" && t.to != "" && t.from != t.to && LeadsBack(graph, t, q)
    ensures answer.Some? && |answer.value| <= |q|
  {
    AnsweredExactly(graph, t, answer, t.at - 604_800_000_000);
  }

  lemma AnswerLeadsBack(graph: set<Edge>, t: Closing, answer: Option<Path>)
    requires Answered(graph, t, answer) && answer.Some?
    ensures LeadsBack(graph, t, answer.value) && t.from != "" && t.to != "" && t.from != t.to
  {
    AnsweredExactly(graph, t, answer, t.at - 604_800_000_000);
  }

  /** Stored transfers that lead back from the recipient to the sender within three hops and seven days. */
  ghost predicate LeadsBack(graph: set<Edge>, t: Closing, p: Path) {
    Leads(graph, t.to, t.from, t.at - 604_800_000_000, t.at, p) && |p| <= 3
  }

  predicate ReturnChain(graph: set<Edge>, t: Closing, p: Path) {
    Matches(graph, t.to, t.from, t.at - CIRCULAR_WINDOW, t.at, CIRCULAR_MAX_HOPS, p)
  }

  lemma AnswerIsSimple(graph: set<Edge>, t: Closing, answer: Option<Path>)
    requires Answered(graph, t, answer) && Evaluate(t, answer).Some?
    ensures ReturnChain(graph, t, answer.value) && t.from != t.to && SimplePath(answer.value)
  {
    var p := answer.value;
    ShortestIsSimple(graph, t.to, t.from, t.at - CIRCULAR_WINDOW, t.at, CIRCULAR_MAX_HOPS, p);
    forall i | 0 <= i < |p| ensures p[i].from == NodeAt(p, i) && p[i].to == NodeAt(p, i + 1) {}
  }

  lemma AlignedIsSimple(t: Closing, p: Path, loop: Flow)
    requires 1 <= |p| <= 3 && NodeAt(p, 0) == t.to && NodeAt(p, |p|) == t.from
    requires SimplePath(p) && Aligned(t, p, loop)
    ensures IsSimpleLoop(t, p, loop)
  {
    forall i, j | 0 <= i < j < loop.hops ensures loop.path[i] != loop.path[j] {
      assert loop.path[j] == NodeAt(p, j - 1);
      if i == 0 { assert NodeAt(p, j - 1) != NodeAt(p, |p|); }
    }
    forall i | 0 <= i < |p|
      ensures p[i].from == loop.path[i + 1] && p[i].to == loop.path[i + 2]
    {
      assert loop.path[i + 1] == NodeAt(p, i) && loop.path[i + 2] == NodeAt(p, i + 1);
    }
  }

  lemma LegsInTime(graph: set<Edge>, t: Closing, p: Path)
    requires ReturnChain(graph, t, p) && SimplePath(p)
    ensures forall i | 0 <= i < |p| :: p[i] in graph && p[i].from != t.from
    ensures forall i, j | 0 <= i <= j < |p| :: t.at - 604_800_000_000 <= p[i].at <= p[j].at <= t.at
  {
    forall i | 0 <= i < |p| ensures p[i].from != t.from { assert NodeAt(p, i) != NodeAt(p, |p|); }
    forall i, j | 0 <= i <= j < |p| ensures p[i].at <= p[j].at { OrderedAll(p, i, j); }
  }

  /** Every flagged loop is a real simple cycle: 2 to 4 transfers with aligned evidence. */
  lemma DetectedLoopIsSimple(graph: set<Edge>, t: Closing, answer: Option<Path>, p: Path, flag: Flag)
    requires Answered(graph, t, answer) && answer == Some(p) && Evaluate(t, answer) == Some(flag)
    ensures IsSimpleLoop(t, p, flag.loop)
  {
    AnswerIsSimple(graph, t, answer);
    LoopIsAligned(t, p);
    AlignedIsSimple(t, p, LoopOf(t, p));
  }

  /** The flag names the sender and is ranked by the number of transfers in the loop. */
  lemma FlagIsRanked(t: Closing, answer: Option<Path>, p: Path, flag: Flag)
    requires answer == Some(p) && p != [] && Evaluate(t, answer) == Some(flag)
    ensures flag.address == t.from && flag.loop.hops == |p| + 1
    ensures flag.severity == if flag.loop.hops == 2 then Low else if flag.loop.hops == 3 then High else Medium
  {
  }

  /** The returning transfers are all stored, none leaves `from` (so the closing transfer is not reused), and they
      are in time order within seven days, the closing transfer last. */
  lemma DetectedLoopIsInTime(graph: set<Edge>, t: Closing, answer: Option<Path>, p: Path)
    requires Answered(graph, t, answer) && answer == Some(p) && Evaluate(t, answer).Some?
    ensures forall i | 0 <= i < |p| :: p[i] in graph && p[i].from != t.from
    ensures forall i, j | 0 <= i <= j < |p| :: t.at - 604_800_000_000 <= p[i].at <= p[j].at <= t.at
  {
    AnswerIsSimple(graph, t, answer);
    LegsInTime(graph, t, p);
  }

  /** And no shorter chain leads back. */
  lemma DetectedLoopIsShortest(graph: set<Edge>, t: Closing, answer: Option<Path>, q: Path)
    requires Answered(graph, t, answer) && Evaluate(t, answer).Some? && LeadsBack(graph, t, q)
    ensures Evaluate(t, answer).value.loop.hops <= |q| + 1
  {
    BackAtLeast(graph, t, answer, q);
  }

  /** A transfer is flagged exactly when some time-ordered chain of at most three stored transfers
      inside the window leads from its recipient back to its sender. */
  lemma FlaggedIffChain(graph: set<Edge>, t: Closing, answer: Option<Path>)
    requires Answered(graph, t, answer)
    ensures Evaluate(t, answer).Some? <==>
      t.from != "" && t.to != "" && t.from != t.to
      && exists p :: LeadsBack(graph, t, p)
  {
    if t.from != "" && t.to != "" && t.from != t.to {
      if answer.Some? { AnswerLeadsBack(graph, t, answer); }
      if q :| LeadsBack(graph, t, q) { BackAtLeast(graph, t, answer, q); }
    }
  }
}
