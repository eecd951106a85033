/** The repair of duplicate account nodes: the query that lists them, and the batches that merge them. */
module GraphRepair {
  import opened Prelude
  import opened GraphMerge

  function NodesAt(g: Graph, a: Address): set<NodeId> {
    set n | n in g.nodes && At(g, n, a)
  }

  /** The nodes that store exactly this string. */
  function NodesNamed(g: Graph, a: Address): set<NodeId> {
    set n | n in g.nodes && g.nodes[n].address == Some(a)
  }

  /** A duplicate group: a normalised address, and nodes that stand for it. */
  datatype Group = Group(address: Address, nodeIds: set<NodeId>)

  /** g after some duplicates were merged away: the meaning and the payloads are those of g. */
  ghost predicate Repairs(g: Graph, h: Graph) {
    && WellFormed(h)
    && SameMeaning(g, h)
    && h.nodes.Keys <= g.nodes.Keys
    && forall payload | Follows(g, payload) :: Follows(h, payload)
  }

  lemma RepairsCompose(g: Graph, h: Graph, k: Graph)
    requires Repairs(g, h) && Repairs(h, k)
    ensures Repairs(g, k)
  {
    assert forall f :: HasFlow(g, f) <==> HasFlow(k, f);
  }

  ghost predicate IsLeast(n: NodeId, ids: set<NodeId>) {
    n in ids && forall m | m in ids :: n.id <= m.id
  }

  /** Of the given nodes only `keep` is left, and stores address a if any other was merged into it; the
      other nodes are as they were. */
  ghost predicate Merged(g: Graph, h: Graph, ids: set<NodeId>, keep: NodeId, a: Address) {
    && keep in ids && ids <= g.nodes.Keys
    && h.nodes.Keys == g.nodes.Keys - (ids - {keep})
    && (forall n | n in h.nodes && n != keep :: h.nodes[n] == g.nodes[n])
    && h.nodes[keep].address == if ids == {keep} then g.nodes[keep].address else Some(a)
  }

  /** dup is gone, the node kept stores a, and every other node is as it was. */
  ghost predicate OneGone(g: Graph, h: Graph, keep: NodeId, dup: NodeId, a: Address) {
    && keep in h.nodes && dup in g.nodes && h.nodes.Keys == g.nodes.Keys - {dup} && |h.nodes| == |g.nodes| - 1
    && h.nodes[keep].address == Some(a)
    && forall n | n in h.nodes && n != keep :: h.nodes[n] == g.nodes[n]
  }

  lemma MergeTwins(g: Graph, keep: NodeId, dup: NodeId, a: Address)
    requires WellFormed(g) && Twins(g, keep, dup, a)
    ensures Repairs(g, MergeNode(g, keep, dup, a)) && OneGone(g, MergeNode(g, keep, dup, a), keep, dup, a)
  {
    MergePreservesMeaning(g, keep, dup, a);
    var h := MergeNode(g, keep, dup, a);
    assert |g.nodes.Keys - {dup}| == |g.nodes.Keys| - 1;
    assert |h.nodes| == |h.nodes.Keys| && |g.nodes| == |g.nodes.Keys|;
  }

  lemma MergedOne(g: Graph, before: Graph, after: Graph, ids: set<NodeId>, keep: NodeId, dup: NodeId, a: Address)
    requires Merged(g, before, ids, keep, a) && dup !in ids && dup in g.nodes
    requires OneGone(before, after, keep, dup, a)
    ensures Merged(g, after, ids + {dup}, keep, a)
  {
    assert ids + {dup} != {keep};
  }

  /** All of the group but those left have been merged into the node kept. */
  ghost predicate Partway(g: Graph, h: Graph, ids: set<NodeId>, left: set<NodeId>, keep: NodeId, a: Address) {
    Repairs(g, h) && Merged(g, h, ids - left, keep, a) && |h.nodes| + |ids - left| == |g.nodes| + 1
  }

  lemma PartwayStarts(g: Graph, ids: set<NodeId>, keep: NodeId, a: Address)
    requires WellFormed(g) && ids <= g.nodes.Keys && keep in ids
    ensures Partway(g, g, ids, ids - {keep}, keep, a)
  {
    assert ids - (ids - {keep}) == {keep};
  }

  lemma StillTwins(
    g: Graph, before: Graph, ids: set<NodeId>, left: set<NodeId>, keep: NodeId, dup: NodeId, a: Address)
    requires ids <= NodesAt(g, a) && Settled(g.normal, a) && keep in ids
    requires left <= ids - {keep} && dup in left && Partway(g, before, ids, left, keep, a)
    ensures WellFormed(before) && Twins(before, keep, dup, a)
  {
    assert At(g, dup, a) && At(g, keep, a);
  }

  /** One more duplicate merged into the node kept. */
  lemma PartwayNext(
    g: Graph, before: Graph, after: Graph, ids: set<NodeId>, left: set<NodeId>, keep: NodeId, dup: NodeId, a: Address)
    requires ids <= g.nodes.Keys && left <= ids - {keep} && dup in left && Partway(g, before, ids, left, keep, a)
    requires Repairs(before, after) && OneGone(before, after, keep, dup, a)
    ensures Partway(g, after, ids, left - {dup}, keep, a)
  {
    assert ids - (left - {dup}) == ids - left + {dup};
    MergedOne(g, before, after, ids - left, keep, dup, a);
    RepairsCompose(g, before, after);
  }

  lemma PartwayEnds(g: Graph, h: Graph, ids: set<NodeId>, keep: NodeId, a: Address)
    requires Partway(g, h, ids, {}, keep, a)
    ensures Repairs(g, h) && Merged(g, h, ids, keep, a) && |h.nodes| + |ids| == |g.nodes| + 1
  {
    assert ids - {} == ids;
  }

  method Least(s: set<NodeId>) returns (least: NodeId)
    requires s != {}
    ensures IsLeast(least, s)
  {
    least :| least in s;
    var todo := s - {least};
    while todo != {}
      invariant todo <= s && least in s
      invariant forall n | n in s - todo :: least.id <= n.id
      decreases todo
    {
      var n :| n in todo;
      todo := todo - {n};
      if n.id < least.id { least := n; }
    }
  }

  // ----- The order of the query -----

  /** Strings character by character. */
  predicate Less(a: Address, b: Address) {
    b != "" && (a == "" || a[0] < b[0] || (a[0] == b[0] && Less(a[1..], b[1..])))
  }

  lemma {:induction false} LessTotal(a: Address, b: Address)
    ensures Less(a, b) || Less(b, a) || a == b
    ensures !(Less(a, b) && Less(b, a)) && !Less(a, a)
  {
    if a != "" && b != "" {
      LessTotal(a[1..], b[1..]);
      if a[0] == b[0] && a[1..] == b[1..] { assert a == [a[0]] + a[1..] == b; }
    }
    if a != "" { LessTotal(a[1..], a[1..]); }
  }

  lemma {:induction false} LessThrough(a: Address, b: Address, c: Address)
    requires Less(a, b) && Less(b, c)
    ensures Less(a, c)
  {
    if a != "" && a[0] == b[0] && b[0] == c[0] { LessThrough(a[1..], b[1..], c[1..]); }
  }

  /** a ends before b differs, or has the smaller character where they first do. */
  ghost predicate SortsAt(a: Address, b: Address, k: nat) {
    k <= |a| && k < |b| && a[..k] == b[..k] && (k == |a| || a[k] < b[k])
  }

  lemma {:induction false} LessExactly(a: Address, b: Address)
    ensures Less(a, b) <==> exists k: nat :: SortsAt(a, b, k)
  {
    if b != "" && (a == "" || a[0] < b[0]) {
      assert SortsAt(a, b, 0);
    } else if b != "" && a[0] == b[0] {
      LessExactly(a[1..], b[1..]);
      if k: nat :| SortsAt(a, b, k) {
        assert k > 0 && a[..k] == [a[0]] + a[1..][..k - 1] && b[..k] == [b[0]] + b[1..][..k - 1];
        assert a[1..][..k - 1] == a[..k][1..] && b[1..][..k - 1] == b[..k][1..];
        assert SortsAt(a[1..], b[1..], k - 1);
      }
      if k: nat :| SortsAt(a[1..], b[1..], k) {
        assert a[..k + 1] == [a[0]] + a[1..][..k] && b[..k + 1] == [b[0]] + b[1..][..k];
        assert SortsAt(a, b, k + 1);
      }
    }
  }

  predicate Duplicated(g: Graph, a: Address) {
    |NodesNamed(g, a)| > 1
  }

  /** ORDER BY size DESC, address ASC. */
  predicate Ahead(g: Graph, a: Address, b: Address) {
    |NodesNamed(g, a)| > |NodesNamed(g, b)| || (|NodesNamed(g, a)| == |NodesNamed(g, b)| && Less(a, b))
  }

  /** The order of the listing: the larger group first, and of equal ones the string that sorts first. */
  lemma AheadExactly(g: Graph, a: Address, b: Address)
    ensures Ahead(g, a, b) <==>
      var atA, atB := set n | n in g.nodes && g.nodes[n].address == Some(a),
                      set n | n in g.nodes && g.nodes[n].address == Some(b);
      |atA| > |atB| || (|atA| == |atB| && exists k: nat :: SortsAt(a, b, k))
  {
    LessExactly(a, b);
  }

  lemma AheadTotal(g: Graph, a: Address, b: Address)
    ensures Ahead(g, a, b) || Ahead(g, b, a) || a == b
    ensures !(Ahead(g, a, b) && Ahead(g, b, a))
  {
    LessTotal(a, b);
  }

  lemma AheadThrough(g: Graph, a: Address, b: Address, c: Address)
    requires Ahead(g, a, b) && Ahead(g, b, c)
    ensures Ahead(g, a, c)
  {
    if Less(a, b) && Less(b, c) { LessThrough(a, b, c); }
  }

  ghost predicate IsTop(g: Graph, top: seq<Address>, limit: nat) {
    && |top| <= limit
    && (forall a | a in top :: Duplicated(g, a))
    && (forall i, j | 0 <= i < j < |top| :: top[i] != top[j] && Ahead(g, top[i], top[j]))
    && (|top| < limit ==> forall a | Duplicated(g, a) :: a in top)
    && (forall i, a | 0 <= i < |top| && Duplicated(g, a) && a !in top :: Ahead(g, top[i], a))
  }

  /** The strings stored more than once. */
  function DuplicatedNames(g: Graph): (all: set<Address>)
    ensures forall a :: a in all <==> Duplicated(g, a)
  {
    var all := set n | n in g.nodes && g.nodes[n].address.Some? && Duplicated(g, g.nodes[n].address.value)
                 :: g.nodes[n].address.value;
    assert forall a | Duplicated(g, a) :: a in all by { AllDuplicated(g, all); }
    all
  }

  lemma AllDuplicated(g: Graph, all: set<Address>)
    requires all == set n | n in g.nodes && g.nodes[n].address.Some? && Duplicated(g, g.nodes[n].address.value)
                    :: g.nodes[n].address.value
    ensures forall a | Duplicated(g, a) :: a in all
  {
    forall a | Duplicated(g, a) ensures a in all {
      var n :| n in NodesNamed(g, a);
    }
  }

  /** Blank as far as the store is concerned. */
  predicate Blank(g: Graph, a: Address) { g.normal(a) == "" }

  /** The blank strings that the query lists before a. */
  function BlankAhead(g: Graph, a: Address): set<Address> {
    set b | b in DuplicatedNames(g) && Blank(g, b) && Ahead(g, b, a)
  }

  /** As many blank groups as fit in a batch are listed before a. */
  predicate Hidden(g: Graph, limit: nat, a: Address) { |BlankAhead(g, a)| >= limit }

  class Neo4jGraph {
    const normal: Address -> Address
    var nodes: map<NodeId, Account>
    var edges: map<Rel, Props>

    constructor (normal: Address -> Address)
      ensures this.normal == normal && Current() == Graph(map[], map[], normal)
    {
      this.normal := normal;
      nodes, edges := map[], map[];
    }

    function Current(): Graph
      reads this
    {
      Graph(nodes, edges, normal)
    }

    /** repairAccountGroup: merge all nodes of the group into the one with the smallest id. A blank
        address or an empty group is left alone. */
    method RepairAccountGroup(group: Group) returns (deleted: nat)
      requires WellFormed(Current()) && Idempotent(normal)
      requires group.nodeIds <= NodesAt(Current(), normal(group.address))
      modifies this`nodes, this`edges
      ensures normal(group.address) == "" || group.nodeIds == {} ==> deleted == 0 && Current() == old(Current())
      ensures normal(group.address) != "" && group.nodeIds != {} ==>
        && deleted == |group.nodeIds| - 1
        && exists keep ::
             IsLeast(keep, group.nodeIds)
             && Merged(old(Current()), Current(), group.nodeIds, keep, normal(group.address))
      ensures Repairs(old(Current()), Current())
      ensures |nodes| + deleted == |old(nodes)|
    {
      var address := normal(group.address);
      if address == "" || group.nodeIds == {} { return 0; }
      assert Settled(normal, address);
      var keep := Least(group.nodeIds);
      MergeAll(group.nodeIds, keep, address);
      deleted := |group.nodeIds| - 1;
    }

    /** The UNWIND over the ids of the duplicates. */
    method MergeAll(ids: set<NodeId>, keep: NodeId, address: Address)
      requires WellFormed(Current()) && Settled(normal, address) && keep in ids && ids <= NodesAt(Current(), address)
      modifies this`nodes, this`edges
      ensures Repairs(old(Current()), Current()) && Merged(old(Current()), Current(), ids, keep, address)
      ensures |nodes| + |ids| == |old(nodes)| + 1
    {
      var duplicates := ids - {keep};
      ghost var g := Current();
      PartwayStarts(g, ids, keep, address);
      while duplicates != {}
        invariant duplicates <= ids - {keep} && Partway(g, Current(), ids, duplicates, keep, address)
        decreases duplicates
      {
        var dup := Least(duplicates);
        ghost var before := Current();
        StillTwins(g, before, ids, duplicates, keep, dup, address);
        MergeInto(keep, dup, address);
        PartwayNext(g, before, Current(), ids, duplicates, keep, dup, address);
        duplicates := duplicates - {dup};
      }
      PartwayEnds(g, Current(), ids, keep, address);
    }

    /** One round of the query. */
    method MergeInto(keep: NodeId, dup: NodeId, address: Address)
      requires WellFormed(Current()) && Twins(Current(), keep, dup, address)
      modifies this`nodes, this`edges
      ensures Repairs(old(Current()), Current()) && OneGone(old(Current()), Current(), keep, dup, address)
    {
      MergeTwins(Current(), keep, dup, address);
      var merged := MergeNode(Current(), keep, dup, address);
      nodes, edges := merged.nodes, merged.edges;
      assert Current() == merged;
    }

    /** The address the query lists first among the given ones. */
    method First(addresses: set<Address>) returns (first: Address)
      requires addresses != {}
      ensures first in addresses && forall a | a in addresses && a != first :: Ahead(Current(), first, a)
    {
      first :| first in addresses;
      var todo := addresses - {first};
      while todo != {}
        invariant todo <= addresses && first in addresses - todo
        invariant forall a | a in addresses && a !in todo && a != first :: Ahead(Current(), first, a)
        decreases todo
      {
        var a :| a in todo;
        AheadTotal(Current(), a, first);
        if Ahead(Current(), a, first) {
          forall b | b in addresses && b !in todo && b != first ensures Ahead(Current(), a, b) {
            AheadThrough(Current(), a, first, b);
          }
          first := a;
        }
        todo := todo - {a};
      }
    }

    /** The query: the strings stored by more than one node, largest group first, at most `limit`. */
    method QueryDuplicates(limit: nat) returns (top: seq<Address>)
      ensures IsTop(Current(), top, limit)
    {
      top := [];
      var todo := DuplicatedNames(Current());
      ghost var all := todo;
      while todo != {} && |top| < limit
        invariant todo <= all && |top| <= limit
        invariant forall a :: a in top <==> a in all - todo
        invariant forall i, j | 0 <= i < j < |top| :: top[i] != top[j] && Ahead(Current(), top[i], top[j])
        invariant forall i, a | 0 <= i < |top| && a in todo :: Ahead(Current(), top[i], a)
        decreases todo
      {
        var a := First(todo);
        forall i | 0 <= i < |top| ensures Ahead(Current(), top[i], a) && top[i] != a { assert top[i] in top; }
        todo := todo - {a};
        top := top + [a];
      }
    }

    /** duplicateAccountGroups: the strings of the query, normalised, with their nodes; blank ones skipped. */
    method DuplicateAccountGroups(limit: nat) returns (groups: seq<Group>)
      ensures IsListing(Current(), groups, limit)
    {
      var listed := QueryDuplicates(limit);
      groups := [];
      for i := 0 to |listed|
        invariant groups == GroupsOf(Current(), listed[..i])
      {
        assert listed[..i + 1][..i] == listed[..i];
        var address := normal(listed[i]);
        if address != "" { groups := groups + [Group(address, NodesNamed(Current(), listed[i]))]; }
      }
      assert listed[..|listed|] == listed;
    }

    /** RepairDuplicateAccounts: batches until the query lists no group to repair, or until the context ends
        or the database fails; a failed repair is rolled back, or done although its reply was lost. The
        meaning of the graph is kept throughout, and so are strings stored once. Without an error no string
        is stored twice, except blank ones, which are left alone, and those hidden behind a full batch of
        blank ones. A string to which no other normalises is left alone exactly if it was hidden at the
        start. If the blank groups leave room in a batch, one node stands for an address at the end, flagged
        if any of its nodes was, if and only if the address was already alone or had no other spelling that
        was stored just once. */
    method RepairDuplicateAccounts(batchSize: int, endings: nat -> Ending)
      returns (repairedGroups: nat, repairedNodes: nat, failed: bool)
      requires WellFormed(Current()) && Idempotent(normal)
      modifies this`nodes, this`edges
      ensures Repairs(old(Current()), Current()) && Traced(old(Current()), Current())
      ensures forall a | Blank(Current(), a) :: NodesNamed(Current(), a) == NodesNamed(old(Current()), a)
      ensures !failed ==> forall a | !Blank(Current(), a) && Duplicated(Current(), a) ::
        Hidden(Current(), if batchSize <= 0 then 100 else batchSize, a)
      ensures !failed ==> forall a | Alone(old(Current()), a) ::
        if Hidden(old(Current()), if batchSize <= 0 then 100 else batchSize, a)
        then NodesNamed(Current(), a) == NodesNamed(old(Current()), a)
        else !Duplicated(Current(), a)
      ensures !failed && |BlankGroups(old(Current()))| < (if batchSize <= 0 then 100 else batchSize) ==>
        United(old(Current()), Current())
      ensures |nodes| + repairedNodes <= |old(nodes)|
      ensures !failed ==> |nodes| + repairedNodes == |old(nodes)|
      ensures repairedGroups <= repairedNodes
      ensures (forall k :: endings(k).Fine?) ==> !failed
    {
      var limit := if batchSize <= 0 then 100 else batchSize;
      repairedGroups, repairedNodes, failed := RepairInBatches(limit, endings);
    }

    /** The batches, of a given size. */
    method RepairInBatches(limit: nat, endings: nat -> Ending)
      returns (repairedGroups: nat, repairedNodes: nat, failed: bool)
      requires limit > 0 && WellFormed(Current()) && Idempotent(normal)
      modifies this`nodes, this`edges
      ensures Repairs(old(Current()), Current()) && Traced(old(Current()), Current())
      ensures forall a | Blank(Current(), a) :: NodesNamed(Current(), a) == NodesNamed(old(Current()), a)
      ensures !failed ==> forall a | !Blank(Current(), a) && Duplicated(Current(), a) ::
        Hidden(Current(), limit, a)
      ensures !failed ==> forall a | Alone(old(Current()), a) ::
        if Hidden(old(Current()), limit, a)
        then NodesNamed(Current(), a) == NodesNamed(old(Current()), a)
        else !Duplicated(Current(), a)
      ensures !failed && |BlankGroups(old(Current()))| < limit ==>
        United(old(Current()), Current())
      ensures |nodes| + repairedNodes <= |old(nodes)|
      ensures !failed ==> |nodes| + repairedNodes == |old(nodes)|
      ensures repairedGroups <= repairedNodes
      ensures (forall k :: endings(k).Fine?) ==> !failed
    {
      repairedGroups, repairedNodes, failed := 0, 0, false;
      ghost var g := Current();
      var k: nat := 0;
      TraceStarts(g);
      while true
        invariant Repairs(g, Current()) && Spares(g, Current(), limit) && Traced(g, Current()) && !failed
        invariant |nodes| + repairedNodes == |g.nodes|
        invariant repairedGroups <= repairedNodes
        decreases |nodes|
      {
        if !endings(k).Fine? { return repairedGroups, repairedNodes, true; }
        k := k + 1;
        var groups := DuplicateAccountGroups(limit);
        ListedGroups(Current(), groups, limit);
        if groups == [] {
          NothingListed(g, Current(), limit);
          AddressesUnited(g, Current(), limit);
          return;
        }
        ghost var start := Current();
        BatchStarts(g, start, limit, groups);
        var i := 0;
        while i < |groups|
          invariant 0 <= i <= |groups| && Batch(g, start, Current(), limit, groups, i) && !failed
          invariant |nodes| + repairedNodes == |g.nodes|
          invariant repairedGroups <= repairedNodes
          invariant if i == 0 then |nodes| == |start.nodes| else |nodes| < |start.nodes|
        {
          ghost var before := Current();
          BatchStands(g, start, before, limit, groups, i);
          if endings(k).RolledBack? { return repairedGroups, repairedNodes, true; }
          var deleted := RepairAccountGroup(groups[i]);
          BatchNext(g, start, before, Current(), limit, groups, i);
          if endings(k).Unconfirmed? { return repairedGroups, repairedNodes, true; }
          k := k + 1;
          if deleted != 0 {
            repairedGroups := repairedGroups + 1;
            repairedNodes := repairedNodes + deleted;
          }
          i := i + 1;
        }
      }
    }
  }

  /** How a call to the database, or the check of the context before a batch, ends. */
  datatype Ending = Fine | RolledBack | Unconfirmed

  /** A string that names an account, and to which no other stored string normalises. */
  ghost predicate Alone(g: Graph, a: Address) {
    && !Blank(g, a)
    && forall n | n in g.nodes && g.nodes[n].address.Some? && g.normal(g.nodes[n].address.value) == a ::
         g.nodes[n].address.value == a
  }

  // ----- What a batch lists -----

  function GroupsOf(g: Graph, top: seq<Address>): seq<Group> {
    if top == [] then []
    else
      var a := top[|top| - 1];
      GroupsOf(g, top[..|top| - 1]) + (if Blank(g, a) then [] else [Group(g.normal(a), NodesNamed(g, a))])
  }

  /** Whole groups, in the order of the query, without a blank one. */
  ghost predicate IsListing(g: Graph, groups: seq<Group>, limit: nat) {
    exists top :: IsTop(g, top, limit) && groups == GroupsOf(g, top)
  }

  /** The group of a string that the query lists. */
  ghost predicate IsGroupOf(g: Graph, x: Group, a: Address) {
    !Blank(g, a) && Duplicated(g, a) && x == Group(g.normal(a), NodesNamed(g, a))
  }

  ghost predicate Listed(g: Graph, limit: nat, x: Group) {
    exists a :: IsGroupOf(g, x, a) && !Hidden(g, limit, a)
  }

  ghost predicate FromTop(g: Graph, top: seq<Address>, x: Group) {
    exists a | a in top :: IsGroupOf(g, x, a)
  }

  lemma {:induction false} GroupsAre(g: Graph, top: seq<Address>)
    requires forall i, j | 0 <= i < j < |top| :: top[i] != top[j]
    requires forall a | a in top :: Duplicated(g, a)
    ensures forall i | 0 <= i < |GroupsOf(g, top)| :: FromTop(g, top, GroupsOf(g, top)[i])
    ensures forall i, j | 0 <= i < j < |GroupsOf(g, top)| :: GroupsOf(g, top)[i].nodeIds !! GroupsOf(g, top)[j].nodeIds
    ensures GroupsOf(g, top) == [] ==> forall a | a in top :: Blank(g, a)
  {
    if top != [] {
      var init, a := top[..|top| - 1], top[|top| - 1];
      GroupsAre(g, init);
      assert top == init + [a];
      var groups := GroupsOf(g, init);
      forall i | 0 <= i < |groups| ensures FromTop(g, top, groups[i]) && groups[i].nodeIds !! NodesNamed(g, a) {
        assert FromTop(g, init, groups[i]);
        var b :| b in init && IsGroupOf(g, groups[i], b);
        assert b in top && b != a;
      }
      assert a in top && (!Blank(g, a) ==> IsGroupOf(g, Group(g.normal(a), NodesNamed(g, a)), a));
    }
  }

  lemma ListedGroups(g: Graph, groups: seq<Group>, limit: nat)
    requires IsListing(g, groups, limit) && limit > 0
    ensures forall i | 0 <= i < |groups| :: Listed(g, limit, groups[i]) && Intact(g, g, groups[i])
    ensures forall i, j | 0 <= i < j < |groups| :: groups[i].nodeIds !! groups[j].nodeIds
    ensures groups == [] ==> forall a | !Blank(g, a) && Duplicated(g, a) :: Hidden(g, limit, a)
  {
    var top :| IsTop(g, top, limit) && groups == GroupsOf(g, top);
    GroupsAre(g, top);
    forall i | 0 <= i < |groups| ensures Listed(g, limit, groups[i]) && Intact(g, g, groups[i]) {
      assert FromTop(g, top, groups[i]);
      var a :| a in top && IsGroupOf(g, groups[i], a);
      InTopIsOpen(g, top, limit, a);
    }
    if groups == [] {
      forall a | !Blank(g, a) && Duplicated(g, a) ensures Hidden(g, limit, a) { BlankTopHides(g, top, limit, a); }
    }
  }

  function Distinct(top: seq<Address>): set<Address> { set a | a in top }

  lemma {:induction false} DistinctSize(top: seq<Address>)
    ensures |Distinct(top)| <= |top|
    ensures (forall i, j | 0 <= i < j < |top| :: top[i] != top[j]) ==> |Distinct(top)| == |top|
  {
    if top != [] {
      var init, a := top[..|top| - 1], top[|top| - 1];
      DistinctSize(init);
      assert top == init + [a];
      assert Distinct(top) == Distinct(init) + {a};
    }
  }

  /** Whatever is ahead of a listed string is listed too. */
  lemma AheadIsListed(g: Graph, top: seq<Address>, limit: nat, a: Address, b: Address)
    requires IsTop(g, top, limit) && a in top && Duplicated(g, b) && Ahead(g, b, a)
    ensures b in top && b != a
  {
    AheadTotal(g, a, b);
  }

  /** What a batch lists is not hidden. */
  lemma InTopIsOpen(g: Graph, top: seq<Address>, limit: nat, a: Address)
    requires IsTop(g, top, limit) && a in top && !Blank(g, a)
    ensures !Hidden(g, limit, a)
  {
    forall b | b in BlankAhead(g, a) ensures b in Distinct(top) - {a} { AheadIsListed(g, top, limit, a, b); }
    assert BlankAhead(g, a) <= Distinct(top) - {a};
    Smaller(BlankAhead(g, a), Distinct(top) - {a});
    DistinctSize(top);
  }

  lemma Smaller<T>(a: set<T>, b: set<T>)
    requires a <= b
    ensures |a| <= |b|
  {
    assert b == a + (b - a);
  }

  /** A batch of blank strings hides everything it does not list. */
  lemma BlankTopHides(g: Graph, top: seq<Address>, limit: nat, a: Address)
    requires IsTop(g, top, limit) && forall b | b in top :: Blank(g, b)
    requires !Blank(g, a) && Duplicated(g, a)
    ensures Hidden(g, limit, a)
  {
    forall b | b in Distinct(top) ensures b in BlankAhead(g, a) {
      var i :| 0 <= i < |top| && top[i] == b;
      assert a !in top && Ahead(g, top[i], a);
    }
    DistinctSize(top);
    Smaller(Distinct(top), BlankAhead(g, a));
  }

  // ----- What a batch leaves alone -----

  /** The group's nodes are as they were when it was listed. */
  ghost predicate Intact(start: Graph, h: Graph, x: Group) {
    && h.normal == start.normal
    && x.nodeIds <= h.nodes.Keys && x.nodeIds <= start.nodes.Keys
    && forall n | n in x.nodeIds :: h.nodes[n] == start.nodes[n]
  }

  lemma IntactStands(start: Graph, h: Graph, x: Group, limit: nat)
    requires Intact(start, h, x) && Listed(start, limit, x) && Idempotent(start.normal)
    ensures h.normal(x.address) == x.address && x.address != "" && |x.nodeIds| > 1
    ensures x.nodeIds <= NodesAt(h, h.normal(x.address))
  {
    var a :| IsGroupOf(start, x, a) && !Hidden(start, limit, a);
    assert Settled(start.normal, start.normal(a));
  }

  lemma OtherIntact(start: Graph, before: Graph, after: Graph, x: Group, y: Group, keep: NodeId, a: Address)
    requires Intact(start, before, y) && x.nodeIds !! y.nodeIds && after.normal == before.normal
    requires Merged(before, after, x.nodeIds, keep, a)
    ensures Intact(start, after, y)
  {
  }

  /** Each node left stores what it did, or the normal form of that. */
  ghost predicate NamesFrom(g: Graph, h: Graph) {
    && h.nodes.Keys <= g.nodes.Keys
    && forall n | n in h.nodes :: NameFrom(h.nodes[n].address, g.nodes[n].address, g.normal)
  }

  predicate NameFrom(now: Option<Address>, was: Option<Address>, normal: Address -> Address) {
    now == was || (was.Some? && now == Some(normal(was.value)))
  }

  /** What the batches so far leave alone: blank strings, and hidden ones that no other normalises to. */
  ghost predicate Spares(g: Graph, h: Graph, limit: nat) {
    && h.normal == g.normal && NamesFrom(g, h)
    && (forall a | Blank(g, a) :: NodesNamed(h, a) == NodesNamed(g, a))
    && (forall a | Alone(g, a) :: Spared(g, h, limit, a))
  }

  ghost predicate Spared(g: Graph, h: Graph, limit: nat, a: Address) {
    NodesNamed(h, a) == NodesNamed(g, a) || (!Hidden(g, limit, a) && !Duplicated(h, a))
  }

  lemma HiddenStays(g: Graph, h: Graph, limit: nat, a: Address)
    requires h.normal == g.normal && forall b | Blank(g, b) :: NodesNamed(h, b) == NodesNamed(g, b)
    requires NodesNamed(h, a) == NodesNamed(g, a)
    ensures Hidden(h, limit, a) <==> Hidden(g, limit, a)
  {
    forall b ensures b in BlankAhead(h, a) <==> b in BlankAhead(g, a) {
      if Blank(g, b) { assert NodesNamed(h, b) == NodesNamed(g, b); }
    }
    assert BlankAhead(h, a) == BlankAhead(g, a);
  }

  lemma NothingListed(g: Graph, h: Graph, limit: nat)
    requires Spares(g, h, limit)
    requires forall a | !Blank(h, a) && Duplicated(h, a) :: Hidden(h, limit, a)
    ensures forall a | Alone(g, a) ::
      if Hidden(g, limit, a) then NodesNamed(h, a) == NodesNamed(g, a) else !Duplicated(h, a)
  {
    forall a | Alone(g, a) && !Hidden(g, limit, a) ensures !Duplicated(h, a) {
      assert Spared(g, h, limit, a);
      if Duplicated(h, a) { HiddenStays(g, h, limit, a); }
    }
    forall a | Alone(g, a) && Hidden(g, limit, a) ensures NodesNamed(h, a) == NodesNamed(g, a) {
      assert Spared(g, h, limit, a);
    }
  }

  lemma NamesMore(g: Graph, before: Graph, after: Graph, x: Group, keep: NodeId, a: Address)
    requires NamesFrom(g, before) && before.normal == g.normal && Idempotent(g.normal)
    requires x.nodeIds <= NodesNamed(before, a) && Merged(before, after, x.nodeIds, keep, g.normal(a))
    ensures NamesFrom(g, after)
  {
    forall n | n in after.nodes ensures NameFrom(after.nodes[n].address, g.nodes[n].address, g.normal) {
      assert NameFrom(before.nodes[n].address, g.nodes[n].address, g.normal);
      if n == keep { assert g.nodes[n].address.Some? && Settled(g.normal, g.normal(g.nodes[n].address.value)); }
    }
  }

  /** The trace of every string: one that is not normalised loses all its nodes at once, and only if it was
      stored twice; an address none of whose nodes stores it normalised has the nodes it had. */
  ghost predicate Traced(g: Graph, h: Graph) {
    && h.normal == g.normal && NamesFrom(g, h)
    && (forall b | !Settled(g.normal, b) :: SpellingTraced(g, h, b))
    && (forall a | Settled(g.normal, a) :: NodesAt(h, a) == NodesAt(g, a) || NodesNamed(h, a) != {})
  }

  ghost predicate SpellingTraced(g: Graph, h: Graph, b: Address) {
    NodesNamed(h, b) == NodesNamed(g, b) || (NodesNamed(h, b) == {} && Duplicated(g, b))
  }

  lemma TraceStarts(g: Graph)
    ensures Traced(g, g)
  {
  }

  /** A group listed under a spelling is all there ever was of it, and leaves it. */
  lemma SpellingGone(
    g: Graph, start: Graph, before: Graph, after: Graph, x: Group, keep: NodeId, a: Address)
    requires SpellingTraced(g, start, a) && SpellingTraced(g, before, a) && !Settled(g.normal, a)
    requires start.normal == g.normal == before.normal && IsGroupOf(start, x, a) && Intact(start, before, x)
    requires Merged(before, after, x.nodeIds, keep, x.address)
    ensures SpellingTraced(g, after, a)
  {
    var n :| n in x.nodeIds && n != keep;
    assert n in NodesNamed(before, a);
    assert NodesNamed(before, a) == NodesNamed(g, a) == x.nodeIds;
    forall m ensures m !in NodesNamed(after, a) {}
    assert NodesNamed(after, a) == {};
  }

  /** Addresses other than the group's keep their nodes. */
  lemma OtherAddress(before: Graph, after: Graph, x: Group, keep: NodeId, a: Address, c: Address)
    requires after.normal == before.normal && Idempotent(before.normal) && x.nodeIds <= NodesNamed(before, a)
    requires Merged(before, after, x.nodeIds, keep, before.normal(a)) && c != before.normal(a)
    ensures NodesAt(after, c) == NodesAt(before, c)
  {
    assert Settled(before.normal, before.normal(a));
    forall n ensures n in NodesAt(after, c) <==> n in NodesAt(before, c) {
      assert n in x.nodeIds ==> n in NodesNamed(before, a);
    }
  }

  lemma TracedMore(g: Graph, start: Graph, before: Graph, after: Graph, x: Group, keep: NodeId, a: Address)
    requires Traced(g, start) && Traced(g, before) && Idempotent(g.normal) && after.normal == g.normal
    requires IsGroupOf(start, x, a) && Intact(start, before, x)
    requires Merged(before, after, x.nodeIds, keep, x.address)
    ensures Traced(g, after)
  {
    assert x.nodeIds <= NodesNamed(before, a);
    assert Settled(g.normal, g.normal(a));
    NamesMore(g, before, after, x, keep, a);
    forall b | !Settled(g.normal, b) ensures SpellingTraced(g, after, b) {
      if b == a {
        SpellingGone(g, start, before, after, x, keep, a);
      } else {
        assert g.normal(a) != b;
        OthersKeepTheirNodes(before, after, x, keep, a, b);
        assert SpellingTraced(g, before, b);
      }
    }
    forall c | Settled(g.normal, c) ensures NodesAt(after, c) == NodesAt(g, c) || NodesNamed(after, c) != {} {
      if c == g.normal(a) {
        KeptIsNamed(after, x, keep, before);
      } else {
        OtherAddress(before, after, x, keep, a, c);
        OthersKeepTheirNodes(before, after, x, keep, a, c);
      }
    }
  }

  lemma KeptIsNamed(after: Graph, x: Group, keep: NodeId, before: Graph)
    requires Merged(before, after, x.nodeIds, keep, x.address) && |x.nodeIds| > 1
    ensures keep in NodesNamed(after, x.address)
  {
    assert x.nodeIds != {keep};
  }

  // ----- One node for an address -----

  /** The blank strings that the query counts. */
  function BlankGroups(g: Graph): set<Address> {
    set b | b in DuplicatedNames(g) && Blank(g, b)
  }

  /** The repair leaves at most one node for address a: it already had at most one, or every other spelling
      of it that is stored is stored twice. */
  ghost predicate Unites(g: Graph, a: Address) {
    |NodesAt(g, a)| <= 1 || forall b | b != a && g.normal(b) == a :: |NodesNamed(g, b)| != 1
  }

  /** Exactly these addresses end with at most one node, flagged if any of their nodes was. */
  ghost predicate United(g: Graph, h: Graph) {
    && (forall a | Settled(g.normal, a) && a != "" :: |NodesAt(h, a)| <= 1 <==> Unites(g, a))
    && (forall a, n | At(h, n, a) && a != "" && Unites(g, a) :: Flag(h, n) <==> ContractAt(g, a))
  }

  /** Where every stored address is normalised, every address is united. */
  lemma NormalisedUnites(g: Graph, a: Address)
    requires forall n | n in g.nodes && g.nodes[n].address.Some? :: Settled(g.normal, g.nodes[n].address.value)
    ensures Unites(g, a)
  {
    forall b | b != a && g.normal(b) == a ensures |NodesNamed(g, b)| != 1 {
      forall n ensures n !in NodesNamed(g, b) {}
      assert NodesNamed(g, b) == {};
    }
  }

  /** With room in a batch nothing is hidden. */
  lemma NothingHidden(g: Graph, h: Graph, limit: nat, a: Address)
    requires h.normal == g.normal && forall b | Blank(g, b) :: NodesNamed(h, b) == NodesNamed(g, b)
    requires |BlankGroups(g)| < limit
    ensures !Hidden(h, limit, a)
  {
    forall b | b in BlankAhead(h, a) ensures b in BlankGroups(g) {
      assert NodesNamed(h, b) == NodesNamed(g, b);
    }
    assert BlankAhead(h, a) <= BlankGroups(g);
    Smaller(BlankAhead(h, a), BlankGroups(g));
  }

  /** A node stands for the address it always stood for. */
  lemma StandsAsBefore(g: Graph, h: Graph, n: NodeId, a: Address)
    requires Traced(g, h) && Idempotent(g.normal) && At(h, n, a)
    ensures At(g, n, a)
  {
    assert NameFrom(h.nodes[n].address, g.nodes[n].address, g.normal);
    if g.nodes[n].address.Some? { assert Settled(g.normal, g.normal(g.nodes[n].address.value)); }
  }

  lemma FewerStand(g: Graph, h: Graph, a: Address)
    requires Traced(g, h) && Idempotent(g.normal)
    ensures |NodesAt(h, a)| <= |NodesAt(g, a)|
  {
    forall n | n in NodesAt(h, a) ensures n in NodesAt(g, a) { StandsAsBefore(g, h, n, a); }
    assert NodesAt(h, a) <= NodesAt(g, a);
    Smaller(NodesAt(h, a), NodesAt(g, a));
  }

  /** Without spellings stored just once only the normalised string is left. */
  lemma OnlyNormalised(g: Graph, h: Graph, a: Address)
    requires Traced(g, h) && Settled(g.normal, a)
    requires forall b | b != a && g.normal(b) == a :: |NodesNamed(g, b)| != 1
    requires forall b | g.normal(b) == a :: !Duplicated(h, b)
    ensures |NodesAt(h, a)| <= 1
  {
    forall b | b != a && g.normal(b) == a ensures NodesNamed(h, b) == {} {
      assert !Settled(g.normal, b) && SpellingTraced(g, h, b);
    }
    forall n | n in NodesAt(h, a) ensures n in NodesNamed(h, a) {
      assert n in NodesNamed(h, h.nodes[n].address.value);
    }
    assert NodesAt(h, a) <= NodesNamed(h, a);
    Smaller(NodesAt(h, a), NodesNamed(h, a));
  }

  /** A spelling stored just once stays, and keeps its address apart from any other node of it. */
  lemma SpellingStaysApart(g: Graph, h: Graph, a: Address, b: Address)
    requires Traced(g, h) && Settled(g.normal, a) && b != a && g.normal(b) == a && |NodesNamed(g, b)| == 1
    requires |NodesAt(h, a)| <= 1
    ensures |NodesAt(g, a)| <= 1
  {
    assert !Settled(g.normal, b) && SpellingTraced(g, h, b);
    var m :| m in NodesNamed(h, b);
    if n :| n in NodesNamed(h, a) {
      OneNode(h, a, m, n);
    }
    assert NodesNamed(h, a) == {};
  }

  lemma UnitedExactly(g: Graph, h: Graph, a: Address)
    requires Traced(g, h) && Idempotent(g.normal) && Settled(g.normal, a)
    requires forall b | g.normal(b) == a :: !Duplicated(h, b)
    ensures |NodesAt(h, a)| <= 1 <==> Unites(g, a)
  {
    if |NodesAt(g, a)| <= 1 {
      FewerStand(g, h, a);
    } else if b :| b != a && g.normal(b) == a && |NodesNamed(g, b)| == 1 {
      if |NodesAt(h, a)| <= 1 { SpellingStaysApart(g, h, a, b); }
    } else {
      OnlyNormalised(g, h, a);
    }
  }

  /** At the end of a repair. */
  lemma AddressesUnited(g: Graph, h: Graph, limit: nat)
    requires Repairs(g, h) && Spares(g, h, limit) && Traced(g, h) && Idempotent(g.normal)
    requires forall a | !Blank(h, a) && Duplicated(h, a) :: Hidden(h, limit, a)
    ensures |BlankGroups(g)| < limit ==> United(g, h)
  {
    if |BlankGroups(g)| < limit {
      forall a | Settled(g.normal, a) && a != "" ensures |NodesAt(h, a)| <= 1 <==> Unites(g, a) {
        forall b | g.normal(b) == a ensures !Duplicated(h, b) { NothingHidden(g, h, limit, b); }
        UnitedExactly(g, h, a);
      }
      forall a, n | At(h, n, a) && a != "" && Unites(g, a) ensures Flag(h, n) <==> ContractAt(g, a) {
        assert Settled(g.normal, g.normal(h.nodes[n].address.value));
        FlagIsOr(g, h, n, a);
      }
    }
  }

  /** No other string is affected. */
  lemma OthersKeepTheirNodes(before: Graph, after: Graph, x: Group, keep: NodeId, a: Address, b: Address)
    requires x.nodeIds <= NodesNamed(before, a) && a != b
    requires Merged(before, after, x.nodeIds, keep, before.normal(a))
    requires before.normal(a) != b || x.nodeIds == {keep}
    ensures NodesNamed(after, b) == NodesNamed(before, b)
  {
    forall n ensures n in NodesNamed(after, b) <==> n in NodesNamed(before, b) {
      assert n in x.nodeIds ==> n in NodesNamed(before, a);
    }
  }

  /** A string to which no other normalises is not written anew. */
  lemma NotWritten(g: Graph, before: Graph, a: Address, b: Address, n: NodeId)
    requires NamesFrom(g, before) && before.normal == g.normal && Idempotent(g.normal)
    requires Alone(g, b) && a != b && n in NodesNamed(before, a)
    ensures g.normal(a) != b
  {
    assert NameFrom(before.nodes[n].address, g.nodes[n].address, g.normal);
    var was := g.nodes[n].address.value;
    assert Settled(g.normal, g.normal(was));
  }

  lemma SparesMore(
    g: Graph, start: Graph, before: Graph, after: Graph, limit: nat, x: Group, keep: NodeId)
    requires Spares(g, start, limit) && Spares(g, before, limit) && Idempotent(g.normal) && after.normal == g.normal
    requires Listed(start, limit, x) && Intact(start, before, x)
    requires Merged(before, after, x.nodeIds, keep, x.address)
    ensures Spares(g, after, limit)
  {
    var a :| IsGroupOf(start, x, a) && !Hidden(start, limit, a);
    assert x.nodeIds <= NodesNamed(before, a);
    NamesMore(g, before, after, x, keep, a);
    forall b | Blank(g, b) ensures NodesNamed(after, b) == NodesNamed(g, b) {
      assert Settled(g.normal, g.normal(a));
      OthersKeepTheirNodes(before, after, x, keep, a, b);
    }
    forall b | Alone(g, b) ensures Spared(g, after, limit, b) {
      assert Spared(g, before, limit, b);
      if b == a {
        OneLeft(g, start, after, limit, x, keep, a);
      } else {
        NotWritten(g, before, a, b, keep);
        OthersKeepTheirNodes(before, after, x, keep, a, b);
      }
    }
  }

  /** A string to which no other normalises has at most the kept node left. */
  lemma OneLeft(g: Graph, start: Graph, after: Graph, limit: nat, x: Group, keep: NodeId, a: Address)
    requires Spares(g, start, limit) && NamesFrom(g, after) && Alone(g, a)
    requires IsGroupOf(start, x, a) && !Hidden(start, limit, a)
    requires keep in x.nodeIds && forall n | n in x.nodeIds && n in after.nodes :: n == keep
    ensures Spared(g, after, limit, a)
  {
    assert Spared(g, start, limit, a);
    HiddenStays(g, start, limit, a);
    forall n | n in NodesNamed(after, a) ensures n == keep {
      assert NameFrom(after.nodes[n].address, g.nodes[n].address, g.normal);
      assert n in NodesNamed(g, a);
    }
    assert NodesNamed(after, a) <= {keep};
    Smaller(NodesNamed(after, a), {keep});
  }

  /** Within a batch: the groups from i on are as they were listed. */
  ghost predicate Batch(g: Graph, start: Graph, h: Graph, limit: nat, groups: seq<Group>, i: nat) {
    && Repairs(g, h) && Spares(g, h, limit) && Spares(g, start, limit) && Idempotent(g.normal)
    && Traced(g, h) && Traced(g, start)
    && (forall j | 0 <= j < |groups| :: Listed(start, limit, groups[j]))
    && (forall j, k | 0 <= j < k < |groups| :: groups[j].nodeIds !! groups[k].nodeIds)
    && forall j | i <= j < |groups| :: Intact(start, h, groups[j])
  }

  lemma BatchStarts(g: Graph, start: Graph, limit: nat, groups: seq<Group>)
    requires Repairs(g, start) && Spares(g, start, limit) && Traced(g, start) && Idempotent(g.normal)
    requires forall j | 0 <= j < |groups| :: Listed(start, limit, groups[j]) && Intact(start, start, groups[j])
    requires forall j, k | 0 <= j < k < |groups| :: groups[j].nodeIds !! groups[k].nodeIds
    ensures Batch(g, start, start, limit, groups, 0)
  {
  }

  lemma BatchStands(g: Graph, start: Graph, h: Graph, limit: nat, groups: seq<Group>, i: nat)
    requires Batch(g, start, h, limit, groups, i) && i < |groups|
    ensures var x := groups[i];
      && WellFormed(h) && h.normal(x.address) == x.address && x.address != "" && |x.nodeIds| > 1
      && x.nodeIds <= NodesAt(h, h.normal(x.address))
  {
    IntactStands(start, h, groups[i], limit);
  }

  lemma BatchNext(g: Graph, start: Graph, before: Graph, after: Graph, limit: nat, groups: seq<Group>, i: nat)
    requires Batch(g, start, before, limit, groups, i) && i < |groups| && Repairs(before, after)
    requires exists keep ::
      IsLeast(keep, groups[i].nodeIds)
      && Merged(before, after, groups[i].nodeIds, keep, before.normal(groups[i].address))
    ensures Batch(g, start, after, limit, groups, i + 1)
  {
    var x := groups[i];
    var keep :| IsLeast(keep, x.nodeIds) && Merged(before, after, x.nodeIds, keep, before.normal(x.address));
    IntactStands(start, before, x, limit);
    RepairsCompose(g, before, after);
    SparesMore(g, start, before, after, limit, x, keep);
    var a :| IsGroupOf(start, x, a) && !Hidden(start, limit, a);
    TracedMore(g, start, before, after, x, keep, a);
    forall j | i < j < |groups| ensures Intact(start, after, groups[j]) {
      OtherIntact(start, before, after, x, groups[j], keep, x.address);
    }
  }

  lemma OneNode(g: Graph, a: Address, m: NodeId, n: NodeId)
    requires |NodesAt(g, a)| <= 1 && At(g, m, a) && At(g, n, a)
    ensures m == n
  {
    assert n in NodesAt(g, a) && m in NodesAt(g, a);
    assert |NodesAt(g, a) - {n}| == 0;
  }

  /** Once one node stands for an address, its flag is the OR of the flags of the merged nodes. */
  lemma FlagIsOr(g: Graph, h: Graph, n: NodeId, a: Address)
    requires Repairs(g, h) && |NodesAt(h, a)| <= 1 && At(h, n, a)
    ensures Flag(h, n) <==> exists m :: At(g, m, a) && Flag(g, m)
  {
    assert ContractAt(g, a) <==> ContractAt(h, a);
    forall m | At(h, m, a) ensures m == n { OneNode(h, a, m, n); }
  }

  /** Two blank nodes and two nodes of another address. */
  function TwoAndTwo(a: Address): Graph {
    Graph(map[NodeId(1) := Account(Some(""), None), NodeId(2) := Account(Some(""), None),
              NodeId(3) := Account(Some(a), None), NodeId(4) := Account(Some(a), None)], map[], b => b)
  }

  /** The blank ones hide the others from batches of one, but not from larger ones. */
  lemma BlankHides(a: Address)
    requires a != ""
    ensures var g := TwoAndTwo(a);
      WellFormed(g) && Idempotent(g.normal) && Duplicated(g, a) && Alone(g, a) && Hidden(g, 1, a) && !Hidden(g, 2, a)
  {
    var g := TwoAndTwo(a);
    assert NodesNamed(g, "") == {NodeId(1), NodeId(2)};
    assert NodesNamed(g, a) == {NodeId(3), NodeId(4)};
    forall b ensures b in BlankAhead(g, a) <==> b == "" {}
    assert BlankAhead(g, a) == {""};
  }

  function TwoNodes(normal: Address -> Address, a: Address, b: Address): Graph {
    Graph(map[NodeId(1) := Account(Some(a), None), NodeId(2) := Account(Some(b), None)], map[], normal)
  }

  /** Two nodes that spell one address in two ways are listed by no query and so are never merged. */
  lemma TwoSpellings(normal: Address -> Address, a: Address, b: Address, limit: nat, groups: seq<Group>)
    requires a != b && normal(a) == normal(b) && IsListing(TwoNodes(normal, a, b), groups, limit)
    ensures groups == [] && NodesAt(TwoNodes(normal, a, b), normal(a)) == {NodeId(1), NodeId(2)}
  {
    var g := TwoNodes(normal, a, b);
    var top :| IsTop(g, top, limit) && groups == GroupsOf(g, top);
    assert NodesNamed(g, a) == {NodeId(1)} && NodesNamed(g, b) == {NodeId(2)};
    forall c | c != a && c != b ensures NodesNamed(g, c) == {} {}
    assert forall c :: !Duplicated(g, c);
    DistinctSize(top);
    assert Distinct(top) == {};
  }

  /** However a repair of two such nodes ends, both are left. */
  lemma BothSpellingsStay(normal: Address -> Address, a: Address, b: Address, h: Graph)
    requires a != b && normal(a) == normal(b) && Traced(TwoNodes(normal, a, b), h)
    ensures !Unites(TwoNodes(normal, a, b), normal(a))
    ensures h.nodes.Keys == {NodeId(1), NodeId(2)}
  {
    var g := TwoNodes(normal, a, b);
    assert NodesNamed(g, a) == {NodeId(1)} && NodesNamed(g, b) == {NodeId(2)};
    assert NodesAt(g, normal(a)) == {NodeId(1), NodeId(2)};
    assert Settled(normal, a) || SpellingTraced(g, h, a);
    assert Settled(normal, b) || SpellingTraced(g, h, b);
    if Settled(normal, a) { StaysBeside(g, h, a, NodeId(1), b, NodeId(2)); }
    if Settled(normal, b) { StaysBeside(g, h, b, NodeId(2), a, NodeId(1)); }
  }

  lemma StaysBeside(g: Graph, h: Graph, a: Address, m: NodeId, b: Address, n: NodeId)
    requires Traced(g, h) && Settled(g.normal, a) && g.normal(b) == a && a != b && m != n
    requires NodesNamed(g, a) == {m} && NodesNamed(g, b) == {n} && g.nodes.Keys == {m, n}
    ensures h.nodes.Keys == {m, n}
  {
    assert !Settled(g.normal, b) && SpellingTraced(g, h, b);
    assert n in NodesNamed(h, b);
    assert m in NodesAt(g, a);
    forall k | k in NodesNamed(h, a) ensures k == m {}
    assert m in h.nodes;
  }
}
