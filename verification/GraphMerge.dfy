/** Merging duplicate account nodes of the property graph without changing what it says
    about addresses. */
module GraphMerge {
  import opened Prelude

  datatype NodeId = NodeId(id: int)

  type Address = string
  type Props = map<string, string>

  /** Relationship identity: a transaction, or one log of a transaction. */
  datatype Key = Sent(hash: string) | Transferred(txHash: string, logIndex: nat)

  datatype Account = Account(address: Option<Address>, isContract: Option<bool>)

  datatype Rel = Rel(src: NodeId, dst: NodeId, key: Key)

  /** The property graph, with the form to which the store normalises addresses. */
  datatype Graph = Graph(nodes: map<NodeId, Account>, edges: map<Rel, Props>, normal: Address -> Address)

  /** An edge between addresses, whichever nodes carry them. */
  datatype Flow = Flow(from: Address, to: Address, key: Key)

  predicate WellFormed(g: Graph) {
    forall r | r in g.edges :: r.src in g.nodes && r.dst in g.nodes
  }

  /** Normalising twice is normalising once. */
  ghost predicate Idempotent(normal: Address -> Address) {
    forall a :: Settled(normal, normal(a))
  }

  predicate Settled(normal: Address -> Address, a: Address) { normal(a) == a }

  /** The node stands for address a, in whatever form it stores it. */
  predicate At(g: Graph, n: NodeId, a: Address) {
    n in g.nodes && g.nodes[n].address.Some? && g.normal(g.nodes[n].address.value) == a
  }

  predicate Carries(g: Graph, r: Rel, f: Flow) {
    r in g.edges && r.key == f.key && At(g, r.src, f.from) && At(g, r.dst, f.to)
  }

  ghost predicate HasFlow(g: Graph, f: Flow) {
    exists r :: Carries(g, r, f)
  }

  ghost predicate SameFlows(g: Graph, h: Graph) {
    forall f :: HasFlow(g, f) <==> HasFlow(h, f)
  }

  /** All edges of a flow carry the properties recorded for it. */
  ghost predicate Follows(g: Graph, payload: map<Flow, Props>) {
    forall r, f | Carries(g, r, f) :: f in payload && g.edges[r] == payload[f]
  }

  predicate Flag(g: Graph, n: NodeId)
    requires n in g.nodes
  {
    g.nodes[n].isContract == Some(true)
  }

  /** Some node of the address is flagged as a contract. */
  ghost predicate ContractAt(g: Graph, a: Address) {
    exists n :: At(g, n, a) && Flag(g, n)
  }

  ghost predicate Present(g: Graph, a: Address) {
    exists n :: At(g, n, a)
  }

  /** The same addresses, flows and contract flags, up to normalisation. */
  ghost predicate SameMeaning(g: Graph, h: Graph) {
    && h.normal == g.normal
    && SameFlows(g, h)
    && (forall a :: Present(g, a) <==> Present(h, a))
    && (forall a :: ContractAt(g, a) <==> ContractAt(h, a))
  }

  // ----- Merging one duplicate into the kept node -----

  function PropsOf(edges: map<Rel, Props>, r: Rel): Props {
    if r in edges then edges[r] else map[]
  }

  /** MERGE (keep)-[key]->(target) SET += for every relationship of the kind leaving dup. */
  function MoveOut(edges: map<Rel, Props>, keep: NodeId, dup: NodeId, sent: bool): map<Rel, Props> {
    map q | q in edges.Keys + (set r | r in edges && r.src == dup && r.key.Sent? == sent :: Rel(keep, r.dst, r.key)) ::
      if q.src == keep && q.key.Sent? == sent && Rel(dup, q.dst, q.key) in edges
      then PropsOf(edges, q) + edges[Rel(dup, q.dst, q.key)]
      else PropsOf(edges, q)
  }

  /** MERGE (source)-[key]->(keep) SET += for every relationship of the kind entering dup. */
  function MoveIn(edges: map<Rel, Props>, keep: NodeId, dup: NodeId, sent: bool): map<Rel, Props> {
    map q | q in edges.Keys + (set r | r in edges && r.dst == dup && r.key.Sent? == sent :: Rel(r.src, keep, r.key)) ::
      if q.dst == keep && q.key.Sent? == sent && Rel(q.src, dup, q.key) in edges
      then PropsOf(edges, q) + edges[Rel(q.src, dup, q.key)]
      else PropsOf(edges, q)
  }

  /** SET keep.address, keep.is_contract = coalesce(keep, false) OR coalesce(dup, false). */
  function Absorb(g: Graph, keep: NodeId, dup: NodeId, address: Address): Graph
    requires keep in g.nodes && dup in g.nodes
  {
    g.(nodes := g.nodes[keep := Account(Some(address), Some(Flag(g, keep) || Flag(g, dup)))])
  }

  function DetachDelete(g: Graph, n: NodeId): Graph {
    Graph(g.nodes - {n}, map r | r in g.edges && r.src != n && r.dst != n :: g.edges[r], g.normal)
  }

  /** The query of repairAccountGroup for one duplicate id. */
  function MergeNode(g: Graph, keep: NodeId, dup: NodeId, address: Address): Graph
    requires keep in g.nodes && dup in g.nodes
  {
    var e1 := MoveOut(g.edges, keep, dup, true);
    var e2 := MoveIn(e1, keep, dup, true);
    var e3 := MoveOut(e2, keep, dup, false);
    var e4 := MoveIn(e3, keep, dup, false);
    DetachDelete(Absorb(g.(edges := e4), keep, dup, address), dup)
  }

  ghost predicate Twins(g: Graph, keep: NodeId, dup: NodeId, a: Address) {
    keep != dup && At(g, keep, a) && At(g, dup, a) && Settled(g.normal, a)
  }

  lemma MoveOutKeeps(g: Graph, keep: NodeId, dup: NodeId, a: Address, sent: bool)
    requires WellFormed(g) && Twins(g, keep, dup, a)
    ensures var h := g.(edges := MoveOut(g.edges, keep, dup, sent));
      && WellFormed(h) && SameFlows(g, h) && g.edges.Keys <= h.edges.Keys
      && (forall r | r in h.edges && r.src == dup && r.key.Sent? == sent :: Rel(keep, r.dst, r.key) in h.edges)
      && (forall r | r in h.edges && r !in g.edges :: r.src == keep && r.key.Sent? == sent)
  {
    var h := g.(edges := MoveOut(g.edges, keep, dup, sent));
    forall f ensures HasFlow(g, f) <==> HasFlow(h, f) {
      if r :| Carries(g, r, f) { assert Carries(h, r, f); }
      if q :| Carries(h, q, f) {
        assert Carries(g, q, f) || Carries(g, Rel(dup, q.dst, q.key), f);
      }
    }
  }

  lemma MoveInKeeps(g: Graph, keep: NodeId, dup: NodeId, a: Address, sent: bool)
    requires WellFormed(g) && Twins(g, keep, dup, a)
    ensures var h := g.(edges := MoveIn(g.edges, keep, dup, sent));
      && WellFormed(h) && SameFlows(g, h) && g.edges.Keys <= h.edges.Keys
      && (forall r | r in h.edges && r.dst == dup && r.key.Sent? == sent :: Rel(r.src, keep, r.key) in h.edges)
      && (forall r | r in h.edges && r !in g.edges :: r.dst == keep && r.key.Sent? == sent)
  {
    var h := g.(edges := MoveIn(g.edges, keep, dup, sent));
    forall f ensures HasFlow(g, f) <==> HasFlow(h, f) {
      if r :| Carries(g, r, f) { assert Carries(h, r, f); }
      if q :| Carries(h, q, f) {
        assert Carries(g, q, f) || Carries(g, Rel(q.src, dup, q.key), f);
      }
    }
  }

  lemma MergedProps(before: Props, payload: Props)
    requires before == map[] || before == payload
    ensures before + payload == payload
  {
  }

  lemma MoveOutKeepsProps(g: Graph, keep: NodeId, dup: NodeId, a: Address, sent: bool, payload: map<Flow, Props>)
    requires Twins(g, keep, dup, a) && Follows(g, payload)
    ensures Follows(g.(edges := MoveOut(g.edges, keep, dup, sent)), payload)
  {
    var h := g.(edges := MoveOut(g.edges, keep, dup, sent));
    forall r, f | Carries(h, r, f) ensures f in payload && h.edges[r] == payload[f] {
      var other := Rel(dup, r.dst, r.key);
      assert r in g.edges ==> Carries(g, r, f);
      if r.src == keep && r.key.Sent? == sent && other in g.edges {
        assert Carries(g, other, f);
        MergedProps(PropsOf(g.edges, r), payload[f]);
      }
    }
  }

  lemma MoveInKeepsProps(g: Graph, keep: NodeId, dup: NodeId, a: Address, sent: bool, payload: map<Flow, Props>)
    requires Twins(g, keep, dup, a) && Follows(g, payload)
    ensures Follows(g.(edges := MoveIn(g.edges, keep, dup, sent)), payload)
  {
    var h := g.(edges := MoveIn(g.edges, keep, dup, sent));
    forall r, f | Carries(h, r, f) ensures f in payload && h.edges[r] == payload[f] {
      var other := Rel(r.src, dup, r.key);
      assert r in g.edges ==> Carries(g, r, f);
      if r.dst == keep && r.key.Sent? == sent && other in g.edges {
        assert Carries(g, other, f);
        MergedProps(PropsOf(g.edges, r), payload[f]);
      }
    }
  }

  /** Every relationship of dup has a copy that avoids dup. */
  ghost predicate Covered(edges: map<Rel, Props>, keep: NodeId, dup: NodeId) {
    forall r | r in edges ::
      Rel(if r.src == dup then keep else r.src, if r.dst == dup then keep else r.dst, r.key) in edges
  }

  ghost predicate CoveredKind(edges: map<Rel, Props>, keep: NodeId, dup: NodeId, sent: bool) {
    forall r | r in edges && r.key.Sent? == sent ::
      Rel(if r.src == dup then keep else r.src, if r.dst == dup then keep else r.dst, r.key) in edges
  }

  /** Every relationship of the kind that leaves dup leaves keep as well. */
  ghost predicate OutCovered(edges: map<Rel, Props>, keep: NodeId, dup: NodeId, sent: bool) {
    forall r | r in edges && r.key.Sent? == sent :: Rel(if r.src == dup then keep else r.src, r.dst, r.key) in edges
  }

  lemma OutMoves(edges: map<Rel, Props>, keep: NodeId, dup: NodeId, sent: bool)
    requires keep != dup
    ensures OutCovered(MoveOut(edges, keep, dup, sent), keep, dup, sent)
  {
    forall r | r in MoveOut(edges, keep, dup, sent) && r.key.Sent? == sent
      ensures Rel(if r.src == dup then keep else r.src, r.dst, r.key) in MoveOut(edges, keep, dup, sent)
    {
      assert r in edges || r.src == keep;
    }
  }

  lemma InMoves(edges: map<Rel, Props>, keep: NodeId, dup: NodeId, sent: bool)
    requires keep != dup && OutCovered(edges, keep, dup, sent)
    ensures CoveredKind(MoveIn(edges, keep, dup, sent), keep, dup, sent)
  {
    var after := MoveIn(edges, keep, dup, sent);
    forall r | r in after && r.key.Sent? == sent
      ensures Rel(if r.src == dup then keep else r.src, if r.dst == dup then keep else r.dst, r.key) in after
    {
      MovedInto(edges, keep, dup, sent, r);
      var back := if r in edges then r else Rel(r.src, dup, r.key);
      var out := Rel(if back.src == dup then keep else back.src, back.dst, back.key);
      assert out in edges;
      MovedInto(edges, keep, dup, sent, Rel(out.src, if out.dst == dup then keep else out.dst, out.key));
    }
  }

  lemma MovedInto(edges: map<Rel, Props>, keep: NodeId, dup: NodeId, sent: bool, q: Rel)
    ensures q in MoveIn(edges, keep, dup, sent) <==>
      q in edges || (q.dst == keep && q.key.Sent? == sent && Rel(q.src, dup, q.key) in edges)
  {
  }

  lemma MovesCover(edges: map<Rel, Props>, keep: NodeId, dup: NodeId, sent: bool)
    requires keep != dup
    ensures CoveredKind(MoveIn(MoveOut(edges, keep, dup, sent), keep, dup, sent), keep, dup, sent)
  {
    OutMoves(edges, keep, dup, sent);
    InMoves(MoveOut(edges, keep, dup, sent), keep, dup, sent);
  }

  lemma MovesKeepOthers(edges: map<Rel, Props>, keep: NodeId, dup: NodeId, sent: bool)
    requires keep != dup && CoveredKind(edges, keep, dup, !sent)
    ensures CoveredKind(MoveIn(MoveOut(edges, keep, dup, sent), keep, dup, sent), keep, dup, !sent)
  {
    var e2 := MoveIn(MoveOut(edges, keep, dup, sent), keep, dup, sent);
    forall r | r in e2 && r.key.Sent? != sent ensures r in edges {}
    forall r | r in edges ensures r in e2 {}
  }

  lemma DeleteKeeps(g: Graph, keep: NodeId, dup: NodeId, a: Address)
    requires WellFormed(g) && Twins(g, keep, dup, a) && Covered(g.edges, keep, dup)
    ensures var h := DetachDelete(Absorb(g, keep, dup, a), dup);
      && WellFormed(h) && SameMeaning(g, h)
      && (forall n, b :: At(h, n, b) <==> n != dup && At(g, n, b))
      && h.nodes.Keys == g.nodes.Keys - {dup} && h.nodes[keep].address == Some(a)
      && (forall n | n in h.nodes && n != keep :: h.nodes[n] == g.nodes[n])
  {
    var h := DetachDelete(Absorb(g, keep, dup, a), dup);
    assert forall n, b :: At(h, n, b) <==> n != dup && At(g, n, b);
    forall f ensures HasFlow(g, f) <==> HasFlow(h, f) {
      if r :| Carries(g, r, f) {
        assert Carries(h, Rel(if r.src == dup then keep else r.src, if r.dst == dup then keep else r.dst, r.key), f);
      }
      if r :| Carries(h, r, f) { assert Carries(g, r, f); }
    }
    forall b ensures Present(g, b) <==> Present(h, b) {
      if n :| At(g, n, b) { assert At(h, if n == dup then keep else n, b); }
    }
    forall b ensures ContractAt(g, b) <==> ContractAt(h, b) {
      if n :| At(g, n, b) && Flag(g, n) {
        var m := if n == dup then keep else n;
        assert At(h, m, b) && Flag(h, m);
      }
      if n :| At(h, n, b) && Flag(h, n) {
        assert At(g, n, b);
        if n == keep && !Flag(g, keep) { assert At(g, dup, b) && Flag(g, dup); }
      }
    }
  }

  lemma FourMoves(g: Graph, keep: NodeId, dup: NodeId, a: Address) returns (h: Graph)
    requires WellFormed(g) && Twins(g, keep, dup, a)
    ensures h == g.(edges := MoveIn(MoveOut(MoveIn(MoveOut(g.edges, keep, dup, true), keep, dup, true),
                                            keep, dup, false), keep, dup, false))
    ensures WellFormed(h) && SameFlows(g, h) && Covered(h.edges, keep, dup)
    ensures forall payload | Follows(g, payload) :: Follows(h, payload)
  {
    var g1 := g.(edges := MoveOut(g.edges, keep, dup, true));
    MoveOutKeeps(g, keep, dup, a, true);
    var g2 := g.(edges := MoveIn(g1.edges, keep, dup, true));
    MoveInKeeps(g1, keep, dup, a, true);
    var g3 := g.(edges := MoveOut(g2.edges, keep, dup, false));
    MoveOutKeeps(g2, keep, dup, a, false);
    h := g.(edges := MoveIn(g3.edges, keep, dup, false));
    MoveInKeeps(g3, keep, dup, a, false);
    MovesCover(g.edges, keep, dup, true);
    MovesCover(g2.edges, keep, dup, false);
    MovesKeepOthers(g2.edges, keep, dup, false);
    forall payload | Follows(g, payload) ensures Follows(h, payload) {
      MoveOutKeepsProps(g, keep, dup, a, true, payload);
      MoveInKeepsProps(g1, keep, dup, a, true, payload);
      MoveOutKeepsProps(g2, keep, dup, a, false, payload);
      MoveInKeepsProps(g3, keep, dup, a, false, payload);
    }
  }

  // ----- The properties of every relationship -----

  /** The properties of two relationships merged, those of the second winning; none if neither is there. */
  function Both(edges: map<Rel, Props>, q: Rel, r: Rel): Props { PropsOf(edges, q) + PropsOf(edges, r) }

  lemma MovedOut(edges: map<Rel, Props>, keep: NodeId, dup: NodeId, sent: bool, q: Rel)
    requires keep != dup
    ensures var after, other := MoveOut(edges, keep, dup, sent), Rel(dup, q.dst, q.key);
      if q.src == keep && q.key.Sent? == sent
      then (q in after <==> q in edges || other in edges) && PropsOf(after, q) == Both(edges, q, other)
      else (q in after <==> q in edges) && PropsOf(after, q) == PropsOf(edges, q)
  {
  }

  lemma MovedIn(edges: map<Rel, Props>, keep: NodeId, dup: NodeId, sent: bool, q: Rel)
    requires keep != dup
    ensures var after, other := MoveIn(edges, keep, dup, sent), Rel(q.src, dup, q.key);
      if q.dst == keep && q.key.Sent? == sent
      then (q in after <==> q in edges || other in edges) && PropsOf(after, q) == Both(edges, q, other)
      else (q in after <==> q in edges) && PropsOf(after, q) == PropsOf(edges, q)
  {
  }

  /** A relationship after both moves of its kind, and after those of the other kind. */
  lemma MovedBoth(edges: map<Rel, Props>, keep: NodeId, dup: NodeId, sent: bool, q: Rel)
    requires keep != dup && q.src != dup && q.dst != dup
    ensures var after := MoveIn(MoveOut(edges, keep, dup, sent), keep, dup, sent);
      if q.key.Sent? == sent then MergedRel(edges, after, keep, dup, q)
      else (q in after <==> q in edges) && PropsOf(after, q) == PropsOf(edges, q)
  {
    var mid := MoveOut(edges, keep, dup, sent);
    MovedOut(edges, keep, dup, sent, q);
    MovedOut(edges, keep, dup, sent, Rel(q.src, dup, q.key));
    MovedIn(mid, keep, dup, sent, q);
  }

  /** What became of a relationship that does not touch dup: with keep at one end it took over that of dup at
      this end, the properties of dup's winning; a loop took over all four between the two nodes. */
  predicate MergedRel(before: map<Rel, Props>, after: map<Rel, Props>, keep: NodeId, dup: NodeId, q: Rel) {
    var out, into, loop := Rel(dup, q.dst, q.key), Rel(q.src, dup, q.key), Rel(dup, dup, q.key);
    if q.src == keep && q.dst == keep then
      && (q in after <==> q in before || out in before || into in before || loop in before)
      && PropsOf(after, q) == Both(before, q, out) + Both(before, into, loop)
    else if q.src == keep then
      (q in after <==> q in before || out in before) && PropsOf(after, q) == Both(before, q, out)
    else if q.dst == keep then
      (q in after <==> q in before || into in before) && PropsOf(after, q) == Both(before, q, into)
    else (q in after <==> q in before) && PropsOf(after, q) == PropsOf(before, q)
  }

  /** Every relationship after a merge, property by property: none touches the node removed, and no property of
      any merged relationship is lost. */
  lemma MergedRelationships(g: Graph, keep: NodeId, dup: NodeId, address: Address, q: Rel)
    requires keep in g.nodes && dup in g.nodes && keep != dup
    ensures var h := MergeNode(g, keep, dup, address);
      if q.src == dup || q.dst == dup then q !in h.edges else MergedRel(g.edges, h.edges, keep, dup, q)
  {
    if q.src != dup && q.dst != dup {
      var mid := MoveIn(MoveOut(g.edges, keep, dup, true), keep, dup, true);
      var last := MoveIn(MoveOut(mid, keep, dup, false), keep, dup, false);
      UntouchedKind(g.edges, mid, last, keep, dup, q);
      assert q in MergeNode(g, keep, dup, address).edges <==> q in last;
    }
  }

  /** The moves of one kind leave the other kind alone, whatever the ends. */
  lemma OtherKind(edges: map<Rel, Props>, keep: NodeId, dup: NodeId, sent: bool, q: Rel)
    requires keep != dup && q.key.Sent? != sent
    ensures var after := MoveIn(MoveOut(edges, keep, dup, sent), keep, dup, sent);
      (q in after <==> q in edges) && PropsOf(after, q) == PropsOf(edges, q)
  {
    MovedOut(edges, keep, dup, sent, q);
    MovedIn(MoveOut(edges, keep, dup, sent), keep, dup, sent, q);
  }

  lemma UntouchedKind(
    first: map<Rel, Props>, mid: map<Rel, Props>, last: map<Rel, Props>, keep: NodeId, dup: NodeId, q: Rel)
    requires keep != dup && q.src != dup && q.dst != dup
    requires mid == MoveIn(MoveOut(first, keep, dup, true), keep, dup, true)
    requires last == MoveIn(MoveOut(mid, keep, dup, false), keep, dup, false)
    ensures MergedRel(first, last, keep, dup, q)
  {
    if q.key.Sent? {
      MovedBoth(first, keep, dup, true, q);
      OtherKind(mid, keep, dup, false, q);
    } else {
      OtherKind(first, keep, dup, true, q);
      OtherKind(first, keep, dup, true, Rel(dup, q.dst, q.key));
      OtherKind(first, keep, dup, true, Rel(q.src, dup, q.key));
      OtherKind(first, keep, dup, true, Rel(dup, dup, q.key));
      MovedBoth(mid, keep, dup, false, q);
    }
  }

  /** Merging a node into another of the same address keeps every address, flow, property and
      contract flag, self-loops and edges between the two included, and removes just that node. The
      node kept stores the normalised address. */
  lemma MergePreservesMeaning(g: Graph, keep: NodeId, dup: NodeId, a: Address)
    requires WellFormed(g) && Twins(g, keep, dup, a)
    ensures var h := MergeNode(g, keep, dup, a);
      && WellFormed(h) && SameMeaning(g, h)
      && (forall n, b :: At(h, n, b) <==> n != dup && At(g, n, b))
      && h.nodes.Keys == g.nodes.Keys - {dup} && h.nodes[keep].address == Some(a)
      && (forall n | n in h.nodes && n != keep :: h.nodes[n] == g.nodes[n])
    ensures forall payload | Follows(g, payload) :: Follows(MergeNode(g, keep, dup, a), payload)
  {
    var mid := FourMoves(g, keep, dup, a);
    DeleteKeeps(mid, keep, dup, a);
    var h := MergeNode(g, keep, dup, a);
    forall b ensures Present(mid, b) <==> Present(g, b) { assert forall n :: At(mid, n, b) <==> At(g, n, b); }
    forall b ensures ContractAt(mid, b) <==> ContractAt(g, b) { assert forall n :: At(mid, n, b) <==> At(g, n, b); }
    forall payload | Follows(g, payload) ensures Follows(h, payload) {
      assert forall r, f | Carries(h, r, f) :: Carries(mid, r, f) && h.edges[r] == mid.edges[r];
    }
  }
}
