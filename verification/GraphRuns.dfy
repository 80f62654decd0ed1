// Every public mutation of the context graph keeps its index invariant, and so does every run.
module GraphRuns {
  import opened Common
  import opened Reachability
  import opened GraphModel

  datatype GraphOp =
    | AddNode(node: Node, now: int)
    | UpdateNode(id: Id, patch: NodePatch, now: int)
    | RemoveNode(id: Id)
    | AddEdge(edge: EdgeSpec)

  function EmptyGraph(): Graph {
    Graph(map[], [], map[], map[])
  }

  // A rejected operation leaves the graph as it was.
  function Apply(g: Graph, op: GraphOp): Graph {
    match op
    case AddNode(n, now) => if g.NodeError(n).Some? then g else g.WithNode(n, now)
    case UpdateNode(id, p, now) => g.WithPatch(id, p, now)
    case RemoveNode(id) => g.WithoutNode(id)
    case AddEdge(e) => if g.EdgeError(e).Some? then g else g.WithEdge(e)
  }

  function Run(ops: seq<GraphOp>): Graph {
    if ops == [] then EmptyGraph() else Apply(Run(ops[..|ops| - 1]), ops[|ops| - 1])
  }

  lemma {:induction false} RunAppend(ops: seq<GraphOp>, op: GraphOp)
    ensures Run(ops + [op]) == Apply(Run(ops), op)
  {
    assert (ops + [op])[..|ops + [op]| - 1] == ops;
  }

  lemma DistinctAdded(es: seq<Edge>, e: Edge)
    requires DistinctKeys(es) && forall f :: f in es ==> !f.SameKey(e)
    ensures DistinctKeys(es + [e])
  {
  }

  lemma WithEdgeDistinct(g: Graph, e: EdgeSpec)
    requires g.Mirrored() && g.EdgesDistinct() && !g.Duplicate(e)
    ensures g.WithEdge(e).EdgesDistinct()
  {
    var h := g.WithEdge(e);
    forall f | f in g.EdgesTo(e.to) ensures !f.SameKey(e.Entry()) {
      assert g.HasEdge(f);
    }
    DistinctAdded(g.EdgesFrom(e.from), e.Entry());
    DistinctAdded(g.EdgesTo(e.to), e.Entry());
    forall x ensures DistinctKeys(h.EdgesFrom(x)) && DistinctKeys(h.EdgesTo(x)) {
      assert DistinctKeys(g.EdgesFrom(x)) && DistinctKeys(g.EdgesTo(x));
      assert h.EdgesFrom(x) == if x == e.from then g.EdgesFrom(x) + [e.Entry()] else g.EdgesFrom(x);
      assert h.EdgesTo(x) == if x == e.to then g.EdgesTo(x) + [e.Entry()] else g.EdgesTo(x);
    }
  }

  lemma WithEdgeIndexes(g: Graph, e: EdgeSpec)
    requires !g.Duplicate(e)
    ensures forall x, f :: f in g.WithEdge(e).EdgesFrom(x) <==> f in g.EdgesFrom(x) || (f == e.Entry() && x == e.from)
    ensures forall x, f :: f in g.WithEdge(e).EdgesTo(x) <==> f in g.EdgesTo(x) || (f == e.Entry() && x == e.to)
  {
  }

  lemma WithEdgeMirrored(g: Graph, e: EdgeSpec)
    requires g.Mirrored() && !g.Duplicate(e)
    ensures g.WithEdge(e).Mirrored()
    ensures forall x :: g.WithEdge(e).HasEdge(x) <==> g.HasEdge(x) || x == e.Entry()
  {
    WithEdgeIndexes(g, e);
  }

  // Adding an edge adds that edge and no other, unless its key is already there.
  lemma WithEdgeKeeps(g: Graph, e: EdgeSpec)
    requires g.WellIndexed() && g.EdgeError(e).None?
    ensures g.WithEdge(e).WellIndexed()
    ensures forall x :: g.WithEdge(e).HasEdge(x) <==> g.HasEdge(x) || (!g.Duplicate(e) && x == e.Entry())
  {
    if !g.Duplicate(e) {
      var h := g.WithEdge(e);
      assert h.NodesKeyed();
      assert h.EndpointsExist();
      assert h.EdgesDistinct() by { WithEdgeDistinct(g, e); }
      WithEdgeMirrored(g, e);
    }
  }

  // An edge is accepted exactly with two existing endpoints and one of the ten types; it is added exactly when no edge
  // has its endpoints and its type.
  lemma {:induction false} EdgeAdded(g: Graph, e: EdgeSpec, x: Edge)
    requires g.WellIndexed()
    ensures g.EdgeError(e).None? <==>
      && e.from != "" && e.to != "" && e.from in g.nodes && e.to in g.nodes
      && e.etype in {RequiresCompletion, RequiresOutput, RequiresEvidence, RequiresDecision, DependsOnArtifact,
                     Produces, Supports, Contradicts, Invalidates, RelatedTo}
    ensures g.EdgeError(e).None? ==>
      (g.WithEdge(e).HasEdge(x) <==>
         || g.HasEdge(x)
         || (x == e.Entry() && !exists y :: g.HasEdge(y) && y.from == e.from && y.to == e.to && y.etype == e.etype))
  {
    if g.EdgeError(e).None? {
      WithEdgeKeeps(g, e);
    }
  }

  // No two edges of a node share target and type, nor two edges into a node source and type.
  lemma {:induction false} EdgesTellApart(g: Graph, id: Id, i: nat, j: nat)
    requires g.WellIndexed()
    ensures i < j < |g.EdgesFrom(id)| ==>
      g.EdgesFrom(id)[i].to != g.EdgesFrom(id)[j].to || g.EdgesFrom(id)[i].etype != g.EdgesFrom(id)[j].etype
    ensures i < j < |g.EdgesTo(id)| ==>
      g.EdgesTo(id)[i].from != g.EdgesTo(id)[j].from || g.EdgesTo(id)[i].etype != g.EdgesTo(id)[j].etype
  {
    assert DistinctKeys(g.EdgesFrom(id)) && DistinctKeys(g.EdgesTo(id));
  }

  lemma WithoutNodeIndexes(g: Graph, id: Id)
    requires id in g.nodes
    ensures forall x :: g.WithoutNode(id).EdgesFrom(x) == if x == id then [] else Avoiding(g.EdgesFrom(x), id)
    ensures forall x :: g.WithoutNode(id).EdgesTo(x) == if x == id then [] else Avoiding(g.EdgesTo(x), id)
  {
  }

  lemma WithoutNodeDistinct(g: Graph, id: Id)
    requires id in g.nodes && g.EdgesDistinct()
    ensures g.WithoutNode(id).EdgesDistinct()
  {
    var h := g.WithoutNode(id);
    WithoutNodeIndexes(g, id);
    forall x ensures DistinctKeys(h.EdgesFrom(x)) && DistinctKeys(h.EdgesTo(x)) {
      AvoidingDistinct(g.EdgesFrom(x), id);
      AvoidingDistinct(g.EdgesTo(x), id);
    }
  }

  // Removing a node deletes precisely the edges touching it, self-loops included.
  lemma WithoutNodeEdges(g: Graph, id: Id)
    requires id in g.nodes && g.Mirrored()
    ensures g.WithoutNode(id).Mirrored()
    ensures forall e :: g.WithoutNode(id).HasEdge(e) <==> g.HasEdge(e) && e.from != id && e.to != id
  {
    WithoutNodeIndexes(g, id);
  }

  lemma WithoutNodeKeeps(g: Graph, id: Id)
    requires id in g.nodes && g.WellIndexed()
    ensures g.WithoutNode(id).WellIndexed()
    ensures g.WithoutNode(id).nodes == g.nodes - {id}
  {
    WithoutIdNoDup(g.order, id);
    WithoutNodeDistinct(g, id);
    WithoutNodeEdges(g, id);
  }

  lemma SameIndexes(g: Graph, h: Graph)
    requires g.WellIndexed() && h.from == g.from && h.to == g.to && g.nodes.Keys <= h.nodes.Keys
    ensures h.Mirrored() && h.EdgesDistinct() && h.TypesKnown() && h.EndpointsExist()
    ensures forall e :: h.HasEdge(e) <==> g.HasEdge(e)
  {
    assert forall x :: h.EdgesFrom(x) == g.EdgesFrom(x);
    assert forall x :: h.EdgesTo(x) == g.EdgesTo(x);
  }

  lemma WithNodeKeeps(g: Graph, n: Node, now: int)
    requires g.WellIndexed() && g.NodeError(n).None?
    ensures g.WithNode(n, now).WellIndexed()
    ensures forall e :: g.WithNode(n, now).HasEdge(e) <==> g.HasEdge(e)
  {
    SameIndexes(g, g.WithNode(n, now));
  }

  lemma WithPatchKeeps(g: Graph, id: Id, p: NodePatch, now: int)
    requires g.WellIndexed()
    ensures g.WithPatch(id, p, now).WellIndexed()
  {
    SameIndexes(g, g.WithPatch(id, p, now));
  }

  lemma ApplyKeeps(g: Graph, op: GraphOp)
    requires g.WellIndexed()
    ensures Apply(g, op).WellIndexed()
  {
    if Apply(g, op) != g {
      match op
      case AddNode(n, now) => WithNodeKeeps(g, n, now);
      case UpdateNode(id, p, now) => WithPatchKeeps(g, id, p, now);
      case RemoveNode(id) => WithoutNodeKeeps(g, id);
      case AddEdge(e) => WithEdgeKeeps(g, e);
    }
  }

  // Every graph built through the public operations has exact mirror indexes, no duplicate
  // (from, to, type), only existing endpoints and only known edge types.
  lemma {:induction false} EveryRunWellIndexed(ops: seq<GraphOp>)
    ensures Run(ops).WellIndexed()
  {
    if ops == [] {
      EmptyWellIndexed();
    } else {
      EveryRunWellIndexed(ops[..|ops| - 1]);
      ApplyKeeps(Run(ops[..|ops| - 1]), ops[|ops| - 1]);
    }
  }

  lemma EmptyWellIndexed()
    ensures EmptyGraph().WellIndexed()
  {
  }

  // Removing a node undoes adding it together with an edge to or from it.
  lemma RemoveUndoesAdd(g: Graph, n: Node, now: int, e: EdgeSpec, x: Edge)
    requires g.WellIndexed() && n.id !in g.nodes && g.NodeError(n).None?
    requires g.WithNode(n, now).EdgeError(e).None? && (e.from == n.id || e.to == n.id)
    ensures g.WithNode(n, now).WithEdge(e).WithoutNode(n.id).HasEdge(x) <==> g.HasEdge(x)
  {
    AddedEdges(g, n, now, e, x);
    if g.HasEdge(x) {
      EndpointsOf(g, x);
    }
    WithoutNodeEdge(g.WithNode(n, now).WithEdge(e), n.id, x);
  }

  lemma RemoveUndoesNode(g: Graph, n: Node, now: int, e: EdgeSpec)
    requires n.id !in g.nodes
    ensures g.WithNode(n, now).WithEdge(e).WithoutNode(n.id).nodes == g.nodes
  {
    assert g.WithNode(n, now).WithEdge(e).nodes == g.WithNode(n, now).nodes;
  }

  lemma WithoutNodeEdge(g: Graph, id: Id, x: Edge)
    requires id in g.nodes && g.Mirrored()
    ensures g.WithoutNode(id).HasEdge(x) <==> g.HasEdge(x) && x.from != id && x.to != id
  {
    WithoutNodeEdges(g, id);
  }

  lemma AddedEdges(g: Graph, n: Node, now: int, e: EdgeSpec, x: Edge)
    requires g.WellIndexed() && g.NodeError(n).None? && g.WithNode(n, now).EdgeError(e).None?
    ensures g.WithNode(n, now).WithEdge(e).Mirrored()
    ensures g.HasEdge(x) ==> g.WithNode(n, now).WithEdge(e).HasEdge(x)
    ensures g.WithNode(n, now).WithEdge(e).HasEdge(x) ==> g.HasEdge(x) || x == e.Entry()
  {
    WithNodeKeeps(g, n, now);
    WithEdgeKeeps(g.WithNode(n, now), e);
  }

  lemma EndpointsOf(g: Graph, x: Edge)
    requires g.Mirrored() && g.EndpointsExist() && g.HasEdge(x)
    ensures x.from in g.nodes && x.to in g.nodes
  {
    assert x in g.EdgesTo(x.to);
  }

  lemma UpstreamInternal(g: Graph)
    ensures Internal(g.UpstreamAdjacency()) && Internal(g.DownstreamAdjacency())
    ensures g.UpstreamAdjacency().Keys == g.nodes.Keys == g.DownstreamAdjacency().Keys
  {
  }

  lemma UpstreamSize(g: Graph, a: Adjacency)
    requires a == g.UpstreamAdjacency()
    ensures |a| == |g.nodes| && a.Keys == g.nodes.Keys && Internal(a)
  {
    UpstreamInternal(g);
    assert a.Keys == g.nodes.Keys;
    assert |a| == |a.Keys| && |g.nodes| == |g.nodes.Keys|;
  }

  lemma DownstreamSize(g: Graph, a: Adjacency)
    requires a == g.DownstreamAdjacency()
    ensures |a| == |g.nodes| && a.Keys == g.nodes.Keys && Internal(a)
  {
    UpstreamInternal(g);
    assert a.Keys == g.nodes.Keys;
    assert |a| == |a.Keys| && |g.nodes| == |g.nodes.Keys|;
  }

  lemma CycleSuccessors(g: Graph, x: Id, y: Id)
    requires g.WellIndexed()
    ensures y in Succ(g.CycleAdjacency(), x) <==>
      exists e :: g.HasEdge(e) && e.from == x && e.to == y
        && (e.etype == RequiresOutput || e.etype == DependsOnArtifact)
  {
    if y in Succ(g.CycleAdjacency(), x) {
      var e :| e in g.CycleEdges(x) && e.to == y;
      assert e in g.EdgesFrom(x);
    }
    if e :| g.HasEdge(e) && e.from == x && e.to == y && (e.etype == RequiresOutput || e.etype == DependsOnArtifact) {
      assert e in g.CycleEdges(x);
    }
  }

  // y is directly upstream of x: x has one of the five dependency edges to y, or y produces x.
  ghost predicate DirectlyUpstream(g: Graph, x: Id, y: Id) {
    exists e :: g.HasEdge(e) && (
      || (e.from == x && e.to == y && (
           || e.etype == RequiresOutput || e.etype == RequiresCompletion || e.etype == RequiresEvidence
           || e.etype == RequiresDecision || e.etype == DependsOnArtifact))
      || (e.from == y && e.to == x && e.etype == Produces))
  }

  // y is directly downstream of x: it requires x as an output, to be completed, or as an artifact.
  ghost predicate DirectlyDownstream(g: Graph, x: Id, y: Id) {
    exists e :: g.HasEdge(e) && e.from == y && e.to == x && (
      || e.etype == RequiresOutput || e.etype == RequiresCompletion || e.etype == DependsOnArtifact)
  }

  lemma DependencyMembers(g: Graph, x: Id, e: Edge)
    ensures e in g.DependencyEdges(x) <==>
      e in g.EdgesFrom(x) && (
        || e.etype == RequiresOutput || e.etype == RequiresCompletion || e.etype == RequiresEvidence
        || e.etype == RequiresDecision || e.etype == DependsOnArtifact)
  {
  }

  // The edges both ways, for either relation.
  lemma {:induction false} UpstreamSuccessors(g: Graph, x: Id, y: Id)
    requires g.WellIndexed()
    ensures y in Succ(g.UpstreamAdjacency(), x) <==> DirectlyUpstream(g, x, y)
  {
    if y in Succ(g.UpstreamAdjacency(), x) {
      UpstreamEdge(g, x, y);
    }
    if DirectlyUpstream(g, x, y) {
      UpstreamListed(g, x, y);
    }
  }

  lemma {:induction false} UpstreamEdge(g: Graph, x: Id, y: Id)
    requires g.Mirrored() && y in Succ(g.UpstreamAdjacency(), x)
    ensures DirectlyUpstream(g, x, y)
  {
    if y in g.Dependencies(x) {
      var e :| e in g.DependencyEdges(x) && e.to == y;
      DependencyMembers(g, x, e);
      assert g.HasEdge(e);
    } else {
      assert y in g.Producers(x);
      var e :| e in OfType(g.EdgesTo(x), Produces) && e.from == y;
      assert e in g.EdgesTo(e.to) && g.HasEdge(e);
    }
  }

  lemma {:induction false} UpstreamListed(g: Graph, x: Id, y: Id)
    requires g.Mirrored() && g.EndpointsExist() && DirectlyUpstream(g, x, y)
    ensures y in Succ(g.UpstreamAdjacency(), x)
  {
    var e :| g.HasEdge(e) && (
      || (e.from == x && e.to == y && (
           || e.etype == RequiresOutput || e.etype == RequiresCompletion || e.etype == RequiresEvidence
           || e.etype == RequiresDecision || e.etype == DependsOnArtifact))
      || (e.from == y && e.to == x && e.etype == Produces));
    EndpointsOf(g, e);
    if e.from == x && e.to == y && e.etype != Produces {
      DependencyMembers(g, x, e);
      assert y in Targets(g.DependencyEdges(x));
      assert y in g.Dependencies(x);
    } else {
      assert e in OfType(g.EdgesTo(x), Produces);
      assert y in g.Producers(x);
    }
  }

  lemma {:induction false} DownstreamSuccessors(g: Graph, x: Id, y: Id)
    requires g.WellIndexed()
    ensures y in Succ(g.DownstreamAdjacency(), x) <==> DirectlyDownstream(g, x, y)
  {
    if y in Succ(g.DownstreamAdjacency(), x) {
      DownstreamEdge(g, x, y);
    }
    if DirectlyDownstream(g, x, y) {
      DownstreamListed(g, x, y);
    }
  }

  lemma {:induction false} DownstreamEdge(g: Graph, x: Id, y: Id)
    requires g.Mirrored() && y in Succ(g.DownstreamAdjacency(), x)
    ensures DirectlyDownstream(g, x, y)
  {
    assert y in g.Dependents(x);
    var e :| e in DownstreamEdges(g.EdgesTo(x)) && e.from == y;
    assert e in g.EdgesTo(e.to) && g.HasEdge(e);
  }

  lemma {:induction false} DownstreamListed(g: Graph, x: Id, y: Id)
    requires g.Mirrored() && g.EndpointsExist() && DirectlyDownstream(g, x, y)
    ensures y in Succ(g.DownstreamAdjacency(), x)
  {
    var e :| g.HasEdge(e) && e.from == y && e.to == x && (
      || e.etype == RequiresOutput || e.etype == RequiresCompletion || e.etype == DependsOnArtifact);
    EndpointsOf(g, e);
    assert e in DownstreamEdges(g.EdgesTo(x));
    assert y in Sources(DownstreamEdges(g.EdgesTo(x)));
    assert y in g.Dependents(x);
  }

  // A chain of direct upstream steps, and one of downstream steps.
  ghost predicate UpstreamChain(g: Graph, p: seq<Id>) {
    p != [] && forall i :: 0 <= i < |p| - 1 ==> DirectlyUpstream(g, p[i], p[i + 1])
  }

  ghost predicate DownstreamChain(g: Graph, p: seq<Id>) {
    p != [] && forall i :: 0 <= i < |p| - 1 ==> DirectlyDownstream(g, p[i], p[i + 1])
  }

  ghost predicate OnUpstreamChain(g: Graph, x: Id, y: Id) {
    exists p :: UpstreamChain(g, p) && p[0] == x && p[|p| - 1] == y
  }

  ghost predicate OnDownstreamChain(g: Graph, x: Id, y: Id) {
    exists p :: DownstreamChain(g, p) && p[0] == x && p[|p| - 1] == y
  }

  lemma {:induction false} UpstreamPaths(g: Graph, p: seq<Id>)
    requires g.WellIndexed()
    ensures UpstreamChain(g, p) <==> IsPath(g.UpstreamAdjacency(), p)
  {
    forall i | 0 <= i < |p| - 1
      ensures p[i + 1] in Succ(g.UpstreamAdjacency(), p[i]) <==> DirectlyUpstream(g, p[i], p[i + 1])
    {
      UpstreamSuccessors(g, p[i], p[i + 1]);
    }
  }

  lemma {:induction false} DownstreamPaths(g: Graph, p: seq<Id>)
    requires g.WellIndexed()
    ensures DownstreamChain(g, p) <==> IsPath(g.DownstreamAdjacency(), p)
  {
    forall i | 0 <= i < |p| - 1
      ensures p[i + 1] in Succ(g.DownstreamAdjacency(), p[i]) <==> DirectlyDownstream(g, p[i], p[i + 1])
    {
      DownstreamSuccessors(g, p[i], p[i + 1]);
    }
  }

  // Reaching a node is having a chain of such steps to it.
  lemma {:induction false} UpstreamReaches(g: Graph, x: Id, y: Id)
    requires g.WellIndexed()
    ensures Reaches(g.UpstreamAdjacency(), x, y) <==> OnUpstreamChain(g, x, y)
  {
    var a := g.UpstreamAdjacency();
    if Reaches(a, x, y) {
      var n: nat :| y in Within(a, x, n);
      var p := PathWithin(a, x, y, n);
      UpstreamPaths(g, p);
    }
    if p :| UpstreamChain(g, p) && p[0] == x && p[|p| - 1] == y {
      UpstreamPaths(g, p);
      PathReaches(a, p);
    }
  }

  lemma {:induction false} DownstreamReaches(g: Graph, x: Id, y: Id)
    requires g.WellIndexed()
    ensures Reaches(g.DownstreamAdjacency(), x, y) <==> OnDownstreamChain(g, x, y)
  {
    var a := g.DownstreamAdjacency();
    if Reaches(a, x, y) {
      var n: nat :| y in Within(a, x, n);
      var p := PathWithin(a, x, y, n);
      DownstreamPaths(g, p);
    }
    if p :| DownstreamChain(g, p) && p[0] == x && p[|p| - 1] == y {
      DownstreamPaths(g, p);
      PathReaches(a, p);
    }
  }

  lemma CycleInternal(g: Graph)
    requires g.WellIndexed()
    ensures Internal(g.CycleAdjacency()) && g.CycleAdjacency().Keys == g.nodes.Keys
  {
    forall x, y | y in Succ(g.CycleAdjacency(), x) ensures y in g.nodes {
      CycleSuccessors(g, x, y);
      var e :| g.HasEdge(e) && e.to == y;
      EndpointsOf(g, e);
    }
  }
}
