// The context graph object: a node map in insertion order and two edge indexes updated in place,
// with the recursive searches that run over it. The clock is a parameter.
module ContextGraphs {
  import opened Common
  import opened Reachability
  import opened GraphModel
  import CycleSearch
  import GraphRuns
  import DepthWalk

  datatype GraphIssue = DanglingSource(id: Id) | DanglingTarget(id: Id) | CycleAt(id: Id)

  class ContextGraph {
    var nodes: map<Id, Node>
    var order: seq<Id>
    var edgesFrom: map<Id, seq<Edge>>
    var edgesTo: map<Id, seq<Edge>>

    function View(): Graph
      reads this
    {
      Graph(nodes, order, edgesFrom, edgesTo)
    }

    ghost predicate Valid()
      reads this
    {
      View().WellIndexed()
    }

    constructor ()
      ensures Valid() && View() == GraphRuns.EmptyGraph()
    {
      nodes, order, edgesFrom, edgesTo := map[], [], map[], map[];
    }

    method AddNode(node: Node, now: int) returns (r: Result<Node, GraphError>)
      requires Valid()
      modifies this
      ensures Valid()
      ensures View() == GraphRuns.Apply(old(View()), GraphRuns.AddNode(node, now))
      ensures r == match old(View()).NodeError(node)
        case Some(e) => Err(e)
        case None => Ok(nodes[node.id])
    {
      if node.id == "" {
        return Err(EmptyId);
      }
      if node.ntype.UnknownType? {
        return Err(InvalidType);
      }
      GraphRuns.WithNodeKeeps(View(), node, now);
      var created := now;
      if node.id in nodes {
        if nodes[node.id].createdAt != 0 {
          created := nodes[node.id].createdAt;
        }
      } else {
        order := order + [node.id];
      }
      var entry := node.(createdAt := created, updatedAt := now);
      nodes := nodes[node.id := entry];
      return Ok(entry);
    }

    method UpdateNode(id: Id, patch: NodePatch, now: int) returns (r: Option<Node>)
      requires Valid()
      modifies this
      ensures Valid()
      ensures View() == GraphRuns.Apply(old(View()), GraphRuns.UpdateNode(id, patch, now))
      ensures r == if id in old(nodes) then Some(nodes[id]) else None
    {
      if id !in nodes {
        return None;
      }
      GraphRuns.WithPatchKeeps(View(), id, patch, now);
      var updated := Patched(nodes[id], patch, now);
      nodes := nodes[id := updated];
      return Some(updated);
    }

    method AddEdge(edge: EdgeSpec) returns (r: Result<Edge, GraphError>)
      requires Valid()
      modifies this
      ensures Valid()
      ensures View() == GraphRuns.Apply(old(View()), GraphRuns.AddEdge(edge))
      ensures r == match old(View()).EdgeError(edge)
        case Some(e) => Err(e)
        case None => Ok(edge.Entry())
    {
      if edge.from == "" { return Err(EmptyFrom); }
      if edge.to == "" { return Err(EmptyTo); }
      if !edge.etype.Known() { return Err(InvalidType); }
      if edge.from !in nodes { return Err(MissingSource); }
      if edge.to !in nodes { return Err(MissingTarget); }
      GraphRuns.WithEdgeKeeps(View(), edge);
      r := Ok(edge.Entry());
      Link(edge);
    }

    // The part of addEdge after its checks.
    method Link(edge: EdgeSpec)
      modifies this
      ensures View() == old(View()).WithEdge(edge)
    {
      var entry := edge.Entry();
      var fromEdges := if edge.from in edgesFrom then edgesFrom[edge.from] else [];
      if exists e :: e in fromEdges && e.to == edge.to && e.etype == edge.etype {
        return;
      }
      edgesFrom := edgesFrom[edge.from := fromEdges + [entry]];
      var toEdges := if edge.to in edgesTo then edgesTo[edge.to] else [];
      edgesTo := edgesTo[edge.to := toEdges + [entry]];
    }

    method RemoveFromEdgesTo(edge: Edge)
      modifies this`edgesTo
      ensures edgesTo == Spliced(old(edgesTo), edge.to, edge)
    {
      if edge.to !in edgesTo { return; }
      edgesTo := edgesTo[edge.to := RemoveFirst(edgesTo[edge.to], edge)];
    }

    method RemoveFromEdgesFrom(edge: Edge)
      modifies this`edgesFrom
      ensures edgesFrom == Spliced(old(edgesFrom), edge.from, edge)
    {
      if edge.from !in edgesFrom { return; }
      edgesFrom := edgesFrom[edge.from := RemoveFirst(edgesFrom[edge.from], edge)];
    }

    // The first loop of removeNode: every outgoing edge leaves the index of its target.
    method UnlinkOutgoing(outgoing: seq<Edge>)
      requires SpliceableTo(edgesTo, outgoing)
      modifies this`edgesTo
      ensures edgesTo == Pruned(old(edgesTo), outgoing)
    {
      ghost var index := edgesTo;
      ExcludingNothing(index);
      for i := 0 to |outgoing|
        invariant edgesTo == Pruned(index, outgoing[..i])
      {
        PrefixFresh(outgoing, i);
        SpliceExtends(index, outgoing[..i], outgoing[i].to, outgoing[i]);
        RemoveFromEdgesTo(outgoing[i]);
      }
      assert outgoing[..|outgoing|] == outgoing;
    }

    // The second loop: every incoming edge leaves the index of its source.
    method UnlinkIncoming(incoming: seq<Edge>)
      requires SpliceableFrom(edgesFrom, incoming)
      modifies this`edgesFrom
      ensures edgesFrom == Pruned(old(edgesFrom), incoming)
    {
      ghost var index := edgesFrom;
      ExcludingNothing(index);
      for i := 0 to |incoming|
        invariant edgesFrom == Pruned(index, incoming[..i])
      {
        PrefixFresh(incoming, i);
        SpliceExtends(index, incoming[..i], incoming[i].from, incoming[i]);
        RemoveFromEdgesFrom(incoming[i]);
      }
      assert incoming[..|incoming|] == incoming;
    }

    method UnlinkAll(id: Id)
      requires id in nodes && Unlinkable(View(), id)
      modifies this
      ensures View() == old(View()).WithoutNode(id)
    {
      nodes := nodes - {id};
      order := WithoutId(order, id);
      UnlinkOutgoing(if id in edgesFrom then edgesFrom[id] else []);
      edgesFrom := edgesFrom - {id};
      UnlinkIncoming(if id in edgesTo then edgesTo[id] else []);
      edgesTo := edgesTo - {id};
    }

    method RemoveNode(id: Id) returns (existed: bool)
      requires Valid()
      modifies this
      ensures Valid()
      ensures existed == (id in old(nodes))
      ensures View() == GraphRuns.Apply(old(View()), GraphRuns.RemoveNode(id))
    {
      if id !in nodes {
        return false;
      }
      GraphRuns.WithoutNodeKeeps(View(), id);
      NodeUnlinkable(View(), id);
      UnlinkAll(id);
      return true;
    }

    // Every filed source and every edge target that names no node, in whatever state the indexes are.
    method DanglingIssues() returns (errors: seq<GraphIssue>)
      ensures Lists(edgesFrom, nodes.Keys, edgesFrom.Keys, errors)
    {
      errors := [];
      var keys := edgesFrom.Keys;
      NothingListed(edgesFrom, nodes.Keys);
      assert edgesFrom.Keys - keys == {};
      while keys != {}
        invariant keys <= edgesFrom.Keys
        invariant Lists(edgesFrom, nodes.Keys, edgesFrom.Keys - keys, errors)
        decreases keys
      {
        var fromId :| fromId in keys;
        var more := IssuesAt(fromId);
        ListsMore(edgesFrom, nodes.Keys, edgesFrom.Keys - keys, errors, fromId, more);
        errors := errors + more;
        assert edgesFrom.Keys - (keys - {fromId}) == (edgesFrom.Keys - keys) + {fromId};
        keys := keys - {fromId};
      }
      assert edgesFrom.Keys - {} == edgesFrom.Keys;
    }

    method IssuesAt(fromId: Id) returns (errors: seq<GraphIssue>)
      requires fromId in edgesFrom
      ensures forall issue :: issue in errors <==> IssueAt(nodes.Keys, fromId, edgesFrom[fromId], issue)
    {
      errors := [];
      if fromId !in nodes {
        errors := errors + [DanglingSource(fromId)];
      }
      var edges := edgesFrom[fromId];
      for i := 0 to |edges|
        invariant forall issue :: issue in errors <==> IssueAt(nodes.Keys, fromId, edges[..i], issue)
      {
        IssueStep(nodes.Keys, fromId, edges, i);
        if edges[i].to !in nodes {
          errors := errors + [DanglingTarget(edges[i].to)];
        }
      }
      assert edges[..|edges|] == edges;
    }

    method CheckEndpoints() returns (errors: seq<GraphIssue>)
      requires Valid()
      ensures errors == []
    {
      NothingDangles(View());
      errors := DanglingIssues();
      NothingToList(View(), errors);
    }

    method FindCycle() returns (found: bool, at: nat)
      requires Valid()
      ensures found <==> Cyclic(View().CycleAdjacency())
      ensures found ==> at < |order| && NamesFirst(View(), at, [CycleAt(order[at])])
    {
      NothingDangles(View());
      found, at := CycleSearch.FindCycle(View().CycleAdjacency(), order);
    }

    // On a graph built through the public operations no edge dangles, and the report names the first
    // node, in insertion order, from which a dependency cycle can be reached.
    method Validate() returns (valid: bool, errors: seq<GraphIssue>)
      requires Valid()
      ensures ExactReport(View(), valid, errors)
    {
      errors := CheckEndpoints();
      var found, at := FindCycle();
      if found {
        errors := errors + [CycleAt(order[at])];
      }
      valid := errors == [];
      ReportExact(View(), found, at, errors);
    }

    // Upstream context of a node. The walk lists ids; the caller receives the nodes they name.
    method GetUpstream(id: Id, maxDepth: int) returns (result: seq<Node>)
      requires Valid()
      ensures forall n :: n in result ==> n.id in nodes && nodes[n.id] == n
      ensures WalkedFrom(View().UpstreamAdjacency(), id, maxDepth, Ids(result))
      ensures id in nodes ==> UpstreamOf(View(), id, maxDepth, Ids(result))
    {
      var ids := ListUpstream(View(), id, maxDepth);
      result := Named(nodes, ids);
    }

    // Downstream context of a node. The guard there is depth > maxDepth, so the same limit reaches one
    // step further than upstream.
    method GetDownstream(id: Id, maxDepth: int) returns (result: seq<Node>)
      requires Valid()
      ensures forall n :: n in result ==> n.id in nodes && nodes[n.id] == n
      ensures WalkedFrom(View().DownstreamAdjacency(), id, maxDepth + 1, Ids(result))
      ensures id in nodes ==> DownstreamOf(View(), id, maxDepth, Ids(result))
    {
      var ids := ListDownstream(View(), id, maxDepth);
      result := Named(nodes, ids);
    }
  }

  // What one filed list of outgoing edges has wrong with it.
  ghost predicate IssueAt(nodes: set<Id>, x: Id, es: seq<Edge>, issue: GraphIssue) {
    (x !in nodes && issue == DanglingSource(x)) || exists e :: e in es && e.to !in nodes && issue == DanglingTarget(e.to)
  }

  lemma IssueStep(nodes: set<Id>, x: Id, es: seq<Edge>, i: nat)
    requires i < |es|
    ensures forall issue :: IssueAt(nodes, x, es[..i + 1], issue) <==>
      IssueAt(nodes, x, es[..i], issue) || (es[i].to !in nodes && issue == DanglingTarget(es[i].to))
  {
    var more, before := es[..i + 1], es[..i];
    assert more == before + [es[i]];
    assert forall e :: e in more <==> e in before || e == es[i];
    forall issue ensures IssueAt(nodes, x, more, issue) <==>
      IssueAt(nodes, x, before, issue) || (es[i].to !in nodes && issue == DanglingTarget(es[i].to))
    {
      if e :| e in more && e.to !in nodes && issue == DanglingTarget(e.to) {
        assert e in before || e == es[i];
      }
    }
  }

  // Exactly the issues of the lists filed under the given ids.
  ghost predicate Lists(index: map<Id, seq<Edge>>, nodes: set<Id>, xs: set<Id>, errors: seq<GraphIssue>) {
    forall issue :: issue in errors <==> exists x :: x in xs && x in index && IssueAt(nodes, x, index[x], issue)
  }

  lemma NothingListed(index: map<Id, seq<Edge>>, nodes: set<Id>)
    ensures Lists(index, nodes, {}, [])
  {
  }

  lemma ListsMore(index: map<Id, seq<Edge>>, nodes: set<Id>, xs: set<Id>, errors: seq<GraphIssue>,
    x: Id, more: seq<GraphIssue>)
    requires Lists(index, nodes, xs, errors) && x in index
    requires forall issue :: issue in more <==> IssueAt(nodes, x, index[x], issue)
    ensures Lists(index, nodes, xs + {x}, errors + more)
  {
    forall issue ensures issue in errors + more <==>
      exists y :: y in xs + {x} && y in index && IssueAt(nodes, y, index[y], issue)
    {
      assert issue in errors + more <==> issue in errors || issue in more;
      if issue in errors {
        var y :| y in xs && y in index && IssueAt(nodes, y, index[y], issue);
        assert y in xs + {x};
      } else if issue in more {
        assert x in xs + {x};
      }
    }
  }

  lemma SomeMember<T>(s: seq<T>)
    ensures s == [] || exists x :: x in s
  {
    if s != [] {
      assert s[0] in s;
    }
  }

  lemma {:induction false} NoIssueAt(g: Graph, x: Id, issue: GraphIssue)
    requires x in g.from && g.from.Keys <= g.nodes.Keys
    requires forall x, e :: x in g.from && e in g.from[x] ==> e.to in g.nodes
    ensures !IssueAt(g.nodes.Keys, x, g.from[x], issue)
  {
  }

  lemma {:induction false} NothingToList(g: Graph, errors: seq<GraphIssue>)
    requires Lists(g.from, g.nodes.Keys, g.from.Keys, errors) && g.from.Keys <= g.nodes.Keys
    requires forall x, e :: x in g.from && e in g.from[x] ==> e.to in g.nodes
    ensures errors == []
  {
    forall issue, x | x in g.from ensures !IssueAt(g.nodes.Keys, x, g.from[x], issue) {
      NoIssueAt(g, x, issue);
    }
    SomeMember(errors);
  }

  // What a depth-limited walk from id returns: nodes within the limit other than id, all its direct
  // neighbours, and, once the limit is the number of nodes, the whole reachable set without repeats.
  ghost predicate WalkedFrom(a: Adjacency, id: Id, maxDepth: int, ids: seq<Id>) {
    && ids == DepthWalk.WalkFrom(a, id, maxDepth)
    && (forall x :: x in ids ==> x in a)
    && (maxDepth >= 0 ==> forall x :: x in ids ==> x != id && x in Within(a, id, maxDepth))
    && (maxDepth >= 1 ==> forall y :: y in Succ(a, id) && y != id ==> y in ids)
    && (id in a && maxDepth >= |a| ==> NoDup(ids) && Elems(ids) == ReachSet(a, id) - {id})
  }

  // Valid means no errors and no cycle; otherwise the one error names the first node into a cycle.
  ghost predicate ExactReport(g: Graph, valid: bool, errors: seq<GraphIssue>) {
    && (valid <==> errors == [])
    && (valid <==> !Cyclic(g.CycleAdjacency()))
    && (!valid ==> exists i :: 0 <= i < |g.order| && NamesFirst(g, i, errors))
  }

  ghost predicate NamesFirst(g: Graph, i: nat, errors: seq<GraphIssue>)
    requires i < |g.order|
  {
    errors == [CycleAt(g.order[i])] && CycleSearch.FirstIntoCycle(g.CycleAdjacency(), g.order, i)
  }

  lemma ReportExact(g: Graph, found: bool, at: nat, errors: seq<GraphIssue>)
    requires found <==> Cyclic(g.CycleAdjacency())
    requires found ==> at < |g.order| && NamesFirst(g, at, errors)
    requires !found ==> errors == []
    ensures ExactReport(g, errors == [], errors)
  {
  }

  // The nodes named by a list of ids.
  function Named(nodes: map<Id, Node>, ids: seq<Id>): (r: seq<Node>)
    requires forall x :: x in ids ==> x in nodes && nodes[x].id == x
    ensures Ids(r) == ids && forall n :: n in r ==> n.id in nodes && nodes[n.id] == n
  {
    seq(|ids|, i requires 0 <= i < |ids| && ids[i] in nodes => nodes[ids[i]])
  }

  function Ids(ns: seq<Node>): seq<Id> {
    seq(|ns|, i requires 0 <= i < |ns| => ns[i].id)
  }

  // ---- lemmas for removeNode ----

  function Spliced(index: map<Id, seq<Edge>>, key: Id, e: Edge): map<Id, seq<Edge>> {
    if key in index then index[key := RemoveFirst(index[key], e)] else index
  }

  function Pruned(index: map<Id, seq<Edge>>, removed: seq<Edge>): map<Id, seq<Edge>> {
    map k | k in index :: Excluding(index[k], removed)
  }

  lemma ExcludingNothing(index: map<Id, seq<Edge>>)
    ensures Pruned(index, []) == index
  {
    forall k | k in index ensures Excluding(index[k], []) == index[k] {
      ExcludingNone(index[k]);
    }
  }

  // One splice of an edge filed under key extends what has been pruned by that edge.
  lemma SpliceExtends(index: map<Id, seq<Edge>>, removed: seq<Edge>, key: Id, e: Edge)
    requires key in index && e in index[key] && e !in removed && DistinctKeys(index[key])
    requires forall k :: k in index && k != key ==> e !in index[k]
    ensures Spliced(Pruned(index, removed), key, e) == Pruned(index, removed + [e])
  {
    forall x | x in index[key] && x.SameKey(e) ensures x == e {
      var i :| 0 <= i < |index[key]| && index[key][i] == x;
      var j :| 0 <= j < |index[key]| && index[key][j] == e;
    }
    RemoveFirstExcludes(index[key], removed, e);
    forall k | k in index && k != key ensures Excluding(index[k], removed) == Excluding(index[k], removed + [e]) {
      ExcludingSame(index[k], removed, removed + [e]);
    }
  }

  lemma PrefixFresh(es: seq<Edge>, i: nat)
    requires DistinctKeys(es) && i < |es|
    ensures es[i] !in es[..i] && es[..i + 1] == es[..i] + [es[i]]
  {
  }

  ghost predicate SpliceableTo(index: map<Id, seq<Edge>>, es: seq<Edge>) {
    DistinctKeys(es) && forall e :: e in es ==> FiledOnce(index, e.to, e)
  }

  ghost predicate SpliceableFrom(index: map<Id, seq<Edge>>, es: seq<Edge>) {
    DistinctKeys(es) && forall e :: e in es ==> FiledOnce(index, e.from, e)
  }

  // e is filed under key, there only, and no other entry there has its key.
  ghost predicate FiledOnce(index: map<Id, seq<Edge>>, key: Id, e: Edge) {
    && key in index && e in index[key] && DistinctKeys(index[key])
    && forall k :: k in index && k != key ==> e !in index[k]
  }

  lemma OutgoingSpliceable(g: Graph, id: Id)
    requires g.WellIndexed()
    ensures SpliceableTo(g.to, g.EdgesFrom(id))
  {
    assert DistinctKeys(g.EdgesFrom(id));
    forall e | e in g.EdgesFrom(id) ensures FiledOnce(g.to, e.to, e) {
      assert g.HasEdge(e);
      assert e in g.EdgesTo(e.to) && DistinctKeys(g.EdgesTo(e.to));
      forall k | k in g.to && k != e.to ensures e !in g.to[k] {
        assert g.to[k] == g.EdgesTo(k);
      }
    }
  }

  // What is left in the incoming list once the outgoing edges are spliced out of edgesTo.
  function Incoming(g: Graph, id: Id): seq<Edge> {
    Excluding(g.EdgesTo(id), g.EdgesFrom(id))
  }

  lemma IncomingSpliceable(g: Graph, id: Id)
    requires g.WellIndexed()
    ensures SpliceableFrom(g.from - {id}, Incoming(g, id))
  {
    assert DistinctKeys(g.EdgesTo(id));
    ExcludingDistinct(g.EdgesTo(id), g.EdgesFrom(id));
    forall e | e in Incoming(g, id) ensures FiledOnce(g.from - {id}, e.from, e) {
      assert e in g.EdgesTo(id);
      assert g.HasEdge(e) && e.from != id;
      assert DistinctKeys(g.EdgesFrom(e.from));
      forall k | k in g.from && k != e.from ensures e !in g.from[k] {
        assert g.from[k] == g.EdgesFrom(k);
      }
    }
  }

  lemma {:induction false} ExcludingDistinct(es: seq<Edge>, removed: seq<Edge>)
    requires DistinctKeys(es)
    ensures DistinctKeys(Excluding(es, removed))
  {
    if es != [] {
      ExcludingDistinct(es[1..], removed);
      forall f | f in es[1..] ensures !es[0].SameKey(f) {
        var i :| 0 <= i < |es[1..]| && es[1..][i] == f;
        assert es[i + 1] == f;
      }
    }
  }

  // Splicing out the outgoing edges, then what is left of the incoming ones, is possible edge by edge
  // and leaves exactly the indexes without the node.
  ghost predicate Unlinkable(g: Graph, id: Id) {
    && SpliceableTo(g.to, g.EdgesFrom(id))
    && SpliceableFrom(g.from - {id}, Incoming(g, id))
    && Pruned(g.to, g.EdgesFrom(id)) - {id} == g.WithoutNode(id).to
    && (if id in g.to then Pruned(g.to, g.EdgesFrom(id))[id] else []) == Incoming(g, id)
    && Pruned(g.from - {id}, Incoming(g, id)) == g.WithoutNode(id).from
  }

  lemma NodeUnlinkable(g: Graph, id: Id)
    requires g.WellIndexed() && id in g.nodes
    ensures Unlinkable(g, id)
  {
    OutgoingSpliceable(g, id);
    IncomingSpliceable(g, id);
    PrunedTo(g, id);
    PrunedFrom(g, id);
  }

  lemma PrunedTo(g: Graph, id: Id)
    requires g.Mirrored() && id in g.nodes
    ensures Pruned(g.to, g.EdgesFrom(id)) - {id} == g.WithoutNode(id).to
    ensures (if id in g.to then Pruned(g.to, g.EdgesFrom(id))[id] else []) == Incoming(g, id)
  {
    var a, b := Pruned(g.to, g.EdgesFrom(id)) - {id}, g.WithoutNode(id).to;
    assert a.Keys == b.Keys;
    forall k | k in a ensures a[k] == b[k] {
      PrunedToAt(g, id, k);
    }
  }

  lemma PrunedToAt(g: Graph, id: Id, k: Id)
    requires g.Mirrored() && k in g.to && k != id
    ensures Excluding(g.to[k], g.EdgesFrom(id)) == Avoiding(g.to[k], id)
  {
    forall x | x in g.to[k] ensures x in g.EdgesFrom(id) <==> x.from == id || x.to == id {
      assert x in g.EdgesTo(k);
      assert g.HasEdge(x);
    }
    ExcludingIsAvoiding(g.to[k], g.EdgesFrom(id), id);
  }

  lemma PrunedFrom(g: Graph, id: Id)
    requires g.Mirrored() && id in g.nodes
    ensures Pruned(g.from - {id}, Incoming(g, id)) == g.WithoutNode(id).from
  {
    var a, b := Pruned(g.from - {id}, Incoming(g, id)), g.WithoutNode(id).from;
    assert a.Keys == b.Keys;
    forall k | k in a ensures a[k] == b[k] {
      PrunedFromAt(g, id, k);
    }
  }

  lemma PrunedFromAt(g: Graph, id: Id, k: Id)
    requires g.Mirrored() && k in g.from && k != id
    ensures Excluding(g.from[k], Incoming(g, id)) == Avoiding(g.from[k], id)
  {
    forall x | x in g.from[k] ensures x in Incoming(g, id) <==> x.from == id || x.to == id {
      TouchesIncoming(g, id, k, x);
    }
    ExcludingIsAvoiding(g.from[k], Incoming(g, id), id);
  }

  lemma TouchesIncoming(g: Graph, id: Id, k: Id, x: Edge)
    requires g.Mirrored() && k != id && x in g.EdgesFrom(k)
    ensures x in Incoming(g, id) <==> x.from == id || x.to == id
  {
  }

  lemma NothingDangles(g: Graph)
    requires g.WellIndexed()
    ensures Internal(g.CycleAdjacency())
    ensures forall x, e :: x in g.from && e in g.from[x] ==> e.to in g.nodes
  {
    GraphRuns.CycleInternal(g);
    forall x, e | x in g.from && e in g.from[x] ensures e.to in g.nodes {
      assert e in g.EdgesFrom(x);
      assert g.HasEdge(e);
      assert e in g.EdgesTo(e.to);
    }
  }

  // Every listed id names a node that carries it.
  ghost predicate Keyed(g: Graph, ids: seq<Id>) {
    forall x :: x in ids ==> x in g.nodes && g.nodes[x].id == x
  }

  lemma {:induction false} KeyedWalk(g: Graph, a: Adjacency, id: Id, max: int, ids: seq<Id>)
    requires g.NodesKeyed() && a.Keys == g.nodes.Keys && WalkedFrom(a, id, max, ids)
    ensures Keyed(g, ids)
  {
  }

  // Where a node stands with respect to a walk: listed only if it can be reached and is not the start, listed if it is
  // a neighbour and the limit is at least 1, or if it can be reached and the limit is at least the number of nodes.
  ghost predicate Placed(listed: bool, start: bool, near: bool, far: bool, max: int, size: int) {
    && (listed ==> !start && far)
    && (max >= 1 && near && !start ==> listed)
    && (max >= size && far && !start ==> listed)
  }

  // In terms of edges: near is a direct upstream step, far a chain of them.
  ghost predicate UpstreamOf(g: Graph, id: Id, maxDepth: int, ids: seq<Id>) {
    forall y :: Placed(y in ids, y == id, GraphRuns.DirectlyUpstream(g, id, y), GraphRuns.OnUpstreamChain(g, id, y),
      maxDepth, |g.nodes|)
  }

  // The same downstream, one depth earlier.
  ghost predicate DownstreamOf(g: Graph, id: Id, maxDepth: int, ids: seq<Id>) {
    forall y :: Placed(y in ids, y == id, GraphRuns.DirectlyDownstream(g, id, y), GraphRuns.OnDownstreamChain(g, id, y),
      maxDepth + 1, |g.nodes|)
  }

  // One id of a walk, whatever the relation.
  lemma {:induction false} WalkPlaces(a: Adjacency, id: Id, max: int, y: Id)
    requires Internal(a) && id in a
    ensures Placed(y in DepthWalk.WalkFrom(a, id, max), y == id, y in Succ(a, id), Reaches(a, id, y), max, |a|)
  {
    WalkExact(a, id, max);
    InReachSet(a, id, y);
    if max >= |a| { assert y in DepthWalk.WalkFrom(a, id, max) <==> y in ReachSet(a, id) - {id}; }
  }

  ghost predicate AllPlaced(a: Adjacency, id: Id, max: int, ids: seq<Id>) {
    forall y :: Placed(y in ids, y == id, y in Succ(a, id), Reaches(a, id, y), max, |a|)
  }

  // The walk along any relation within its nodes.
  method ListWalk(a: Adjacency, id: Id, max: int) returns (ids: seq<Id>)
    requires Internal(a)
    ensures WalkedFrom(a, id, max, ids)
    ensures id in a ==> AllPlaced(a, id, max, ids)
  {
    var visited;
    visited, ids := DepthWalk.Expand(a, id, 0, max, {}, []);
    WalkExact(a, id, max);
    if id in a {
      forall y ensures Placed(y in ids, y == id, y in Succ(a, id), Reaches(a, id, y), max, |a|) {
        WalkPlaces(a, id, max, y);
      }
    }
  }

  lemma {:induction false} UpstreamMeans(g: Graph, a: Adjacency, id: Id, y: Id)
    requires g.WellIndexed() && a == g.UpstreamAdjacency()
    ensures y in Succ(a, id) <==> GraphRuns.DirectlyUpstream(g, id, y)
    ensures Reaches(a, id, y) <==> GraphRuns.OnUpstreamChain(g, id, y)
  {
    GraphRuns.UpstreamReaches(g, id, y);
    GraphRuns.UpstreamSuccessors(g, id, y);
  }

  lemma {:induction false} UpstreamExact(g: Graph, a: Adjacency, id: Id, maxDepth: int, ids: seq<Id>)
    requires g.WellIndexed() && a == g.UpstreamAdjacency() && |a| == |g.nodes|
    requires AllPlaced(a, id, maxDepth, ids)
    ensures UpstreamOf(g, id, maxDepth, ids)
  {
    forall y ensures Placed(y in ids, y == id, GraphRuns.DirectlyUpstream(g, id, y), GraphRuns.OnUpstreamChain(g, id, y),
      maxDepth, |g.nodes|)
    {
      UpstreamMeans(g, a, id, y);
      assert Placed(y in ids, y == id, y in Succ(a, id), Reaches(a, id, y), maxDepth, |a|);
    }
  }

  lemma {:induction false} DownstreamMeans(g: Graph, a: Adjacency, id: Id, y: Id)
    requires g.WellIndexed() && a == g.DownstreamAdjacency()
    ensures y in Succ(a, id) <==> GraphRuns.DirectlyDownstream(g, id, y)
    ensures Reaches(a, id, y) <==> GraphRuns.OnDownstreamChain(g, id, y)
  {
    GraphRuns.DownstreamReaches(g, id, y);
    GraphRuns.DownstreamSuccessors(g, id, y);
  }

  lemma {:induction false} DownstreamExact(g: Graph, a: Adjacency, id: Id, maxDepth: int, ids: seq<Id>)
    requires g.WellIndexed() && a == g.DownstreamAdjacency() && |a| == |g.nodes|
    requires AllPlaced(a, id, maxDepth + 1, ids)
    ensures DownstreamOf(g, id, maxDepth, ids)
  {
    forall y ensures Placed(y in ids, y == id, GraphRuns.DirectlyDownstream(g, id, y), GraphRuns.OnDownstreamChain(g, id, y),
      maxDepth + 1, |g.nodes|)
    {
      DownstreamMeans(g, a, id, y);
      assert Placed(y in ids, y == id, y in Succ(a, id), Reaches(a, id, y), maxDepth + 1, |a|);
    }
  }

  method ListUpstream(g: Graph, id: Id, maxDepth: int) returns (ids: seq<Id>)
    requires g.WellIndexed()
    ensures WalkedFrom(g.UpstreamAdjacency(), id, maxDepth, ids) && Keyed(g, ids)
    ensures id in g.nodes ==> UpstreamOf(g, id, maxDepth, ids)
  {
    var a := g.UpstreamAdjacency();
    GraphRuns.UpstreamSize(g, a);
    ids := ListWalk(a, id, maxDepth);
    KeyedWalk(g, a, id, maxDepth, ids);
    if id in g.nodes {
      UpstreamExact(g, a, id, maxDepth, ids);
    }
  }

  method ListDownstream(g: Graph, id: Id, maxDepth: int) returns (ids: seq<Id>)
    requires g.WellIndexed()
    ensures WalkedFrom(g.DownstreamAdjacency(), id, maxDepth + 1, ids) && Keyed(g, ids)
    ensures id in g.nodes ==> DownstreamOf(g, id, maxDepth, ids)
  {
    var a := g.DownstreamAdjacency();
    GraphRuns.DownstreamSize(g, a);
    ids := ListWalk(a, id, maxDepth + 1);
    KeyedWalk(g, a, id, maxDepth + 1, ids);
    if id in g.nodes {
      DownstreamExact(g, a, id, maxDepth, ids);
    }
  }

  lemma WalkExact(a: Adjacency, id: Id, maxDepth: int)
    requires Internal(a)
    ensures WalkedFrom(a, id, maxDepth, DepthWalk.WalkFrom(a, id, maxDepth))
  {
    if maxDepth >= 0 {
      DepthWalk.WalkSound(a, id, maxDepth);
      if id in a && maxDepth >= |a| {
        assert |a.Keys| == |a|;
        SubsetCard({id}, a.Keys);
        DepthWalk.WalkNoDup(a, id, maxDepth);
        DepthWalk.WalkComplete(a, id, maxDepth);
      }
    }
  }
}
