// Which nodes the router requires for a task, in terms of the edges of the graph.
module RouterRequired {
  import opened Common
  import opened Ordering
  import opened Reachability
  import opened GraphModel
  import opened GraphRuns
  import opened ContextRouter
  import DepthWalk

  predicate Causes(t: EdgeType) {
    t == RequiresOutput || t == RequiresCompletion || t == RequiresEvidence || t == RequiresDecision || t == DependsOnArtifact
  }

  ghost predicate DependsDirectly(g: Graph, x: Id, y: Id) {
    exists e :: g.HasEdge(e) && e.from == x && e.to == y && Causes(e.etype)
  }

  // Required by cause: the task, what is marked mandatory, what the task depends on, and what the walk of depth 5 along
  // upstream steps lists.
  ghost predicate Causal(g: Graph, taskId: Id, x: Id) {
    || x == taskId
    || (x in g.nodes && g.nodes[x].mandatory)
    || DependsDirectly(g, taskId, x)
    || x in DepthWalk.WalkFrom(g.UpstreamAdjacency(), taskId, 5)
  }

  ghost predicate Produced(g: Graph, taskId: Id, x: Id) {
    exists e :: g.HasEdge(e) && e.etype == Produces && e.to == x && Causal(g, taskId, e.from)
  }

  // Attached to the task by an edge into it, or by a related_to edge out of it, and relevant to the prompt.
  ghost predicate AttachedAs(g: Graph, q: Request, t: NodeType, n: Node) {
    && n.ntype == t && q.related(n)
    && exists e :: g.HasEdge(e) && (
         || (e.to == q.taskId && e.from in g.nodes && g.nodes[e.from] == n)
         || (e.from == q.taskId && e.etype == RelatedTo && e.to in g.nodes && g.nodes[e.to] == n))
  }

  // Among the first five of the attached nodes of its type, oldest first and then by id.
  ghost predicate AmongOldest(g: Graph, q: Request, t: NodeType, x: Id) {
    exists s: seq<Node>, i: nat ::
      && multiset(s) == multiset(Attached(g, q, t)) && SortedBy(OlderFirst, s)
      && i < |s| && i < 5 && s[i].id == x
  }

  ghost predicate ByCategory(g: Graph, q: Request, x: Id) {
    q.promptAware && (
      || AmongOldest(g, q, Evidence, x) || AmongOldest(g, q, Decision, x)
      || AmongOldest(g, q, Constraint, x) || AmongOldest(g, q, Observation, x))
  }

  ghost predicate Reached(g: Graph, q: Request, x: Id) {
    Causal(g, q.taskId, x) || Produced(g, q.taskId, x) || ByCategory(g, q, x)
  }

  // What supports a required output, or requires it as one.
  ghost predicate AroundOutput(g: Graph, q: Request, x: Id) {
    exists id :: id in g.nodes && g.nodes[id].ntype == Output && Reached(g, q, id) && Backs(g, x, id)
  }

  // ---- phase by phase ----

  lemma {:induction false} MarkedAre(g: Graph, order: seq<Id>, x: Id)
    ensures x in MarkedMandatory(g, order) <==> x in order && x in g.nodes && g.nodes[x].mandatory
  {
  }

  lemma {:induction false} DependenciesAre(g: Graph, t: Id, x: Id)
    requires g.WellIndexed()
    ensures x in g.Dependencies(t) <==> DependsDirectly(g, t, x)
  {
    if x in g.Dependencies(t) {
      var e :| e in g.DependencyEdges(t) && e.to == x;
      DependencyMembers(g, t, e);
    }
    if DependsDirectly(g, t, x) {
      var e :| g.HasEdge(e) && e.from == t && e.to == x && Causes(e.etype);
      DependencyMembers(g, t, e);
      EndpointsOf(g, e);
      assert x in Targets(g.DependencyEdges(t));
    }
  }

  lemma {:induction false} ProducedByAre(g: Graph, ids: seq<Id>, x: Id)
    requires g.Filed()
    ensures x in ProducedBy(g, ids) <==> exists e :: g.HasEdge(e) && e.etype == Produces && e.to == x && e.from in ids
  {
    if ids != [] {
      ProducedByAre(g, ids[1..], x);
      assert forall y :: y in ids <==> y == ids[0] || y in ids[1..];
      var es := OfType(g.EdgesFrom(ids[0]), Produces);
      if x in Targets(es) {
        var e :| e in es && e.to == x;
        assert g.HasEdge(e);
      }
      if e :| g.HasEdge(e) && e.etype == Produces && e.to == x && e.from in ids {
        if e.from == ids[0] { assert e in es && x in Targets(es); }
      }
    }
  }

  lemma {:induction false} RelevantAre(g: Graph, q: Request, t: NodeType, ids: seq<Id>, n: Node)
    ensures n in Relevant(g, q, t, ids) <==>
      exists x :: x in ids && x in g.nodes && g.nodes[x] == n && n.ntype == t && q.related(n)
  {
    if ids != [] {
      RelevantAre(g, q, t, ids[1..], n);
      assert forall y :: y in ids <==> y == ids[0] || y in ids[1..];
    }
  }

  lemma {:induction false} AttachedAre(g: Graph, q: Request, t: NodeType, n: Node)
    requires g.Mirrored()
    ensures n in Attached(g, q, t) <==> AttachedAs(g, q, t, n)
  {
    var sources, targets := Sources(g.EdgesTo(q.taskId)), Targets(OfType(g.EdgesFrom(q.taskId), RelatedTo));
    RelevantAre(g, q, t, sources, n);
    RelevantAre(g, q, t, targets, n);
    if n in Relevant(g, q, t, sources) {
      var x :| x in sources && x in g.nodes && g.nodes[x] == n;
      var e :| e in g.EdgesTo(q.taskId) && e.from == x;
      assert e in g.EdgesTo(e.to) && g.HasEdge(e);
    }
    if n in Relevant(g, q, t, targets) {
      var x :| x in targets && x in g.nodes && g.nodes[x] == n;
      var e :| e in OfType(g.EdgesFrom(q.taskId), RelatedTo) && e.to == x;
      assert g.HasEdge(e);
    }
    if AttachedAs(g, q, t, n) {
      AttachedListed(g, q, t, n);
    }
  }

  lemma {:induction false} AttachedListed(g: Graph, q: Request, t: NodeType, n: Node)
    requires g.Mirrored() && AttachedAs(g, q, t, n)
    ensures n in Attached(g, q, t)
  {
    var sources, targets := Sources(g.EdgesTo(q.taskId)), Targets(OfType(g.EdgesFrom(q.taskId), RelatedTo));
    RelevantAre(g, q, t, sources, n);
    RelevantAre(g, q, t, targets, n);
    var e :| g.HasEdge(e) && (
      || (e.to == q.taskId && e.from in g.nodes && g.nodes[e.from] == n)
      || (e.from == q.taskId && e.etype == RelatedTo && e.to in g.nodes && g.nodes[e.to] == n));
    if e.to == q.taskId && e.from in g.nodes && g.nodes[e.from] == n {
      assert e in g.EdgesTo(q.taskId) && e.from in sources;
    } else {
      assert e in OfType(g.EdgesFrom(q.taskId), RelatedTo) && e.to in targets;
    }
  }

  lemma OlderTotal()
    ensures TotalPreorder(OlderFirst)
  {
    forall a, b ensures OlderFirst(a, b) || OlderFirst(b, a) { StringLeTotal(a.id, b.id); }
    forall a, b, c | OlderFirst(a, b) && OlderFirst(b, c) ensures OlderFirst(a, c) {
      if a.createdAt == c.createdAt { StringLeTransitive(a.id, b.id, c.id); }
    }
  }

  // Nodes that the order tells apart can be put in it in one way only.
  lemma {:induction false} OneOrder(ns: seq<Node>, s: seq<Node>)
    requires multiset(s) == multiset(ns) && SortedBy(OlderFirst, s) && Separates(OlderFirst, s)
    ensures s == Sort(OlderFirst, ns)
  {
    OlderTotal();
    SortMembers(OlderFirst, ns);
    SortSorted(OlderFirst, ns);
    SortedUnique(OlderFirst, s, Sort(OlderFirst, ns));
  }

  lemma {:induction false} SortedOldest(g: Graph, q: Request, t: NodeType, x: Id)
    requires x in OldestFew(Attached(g, q, t))
    ensures AmongOldest(g, q, t, x)
  {
    var ns := Attached(g, q, t);
    var sorted := Sort(OlderFirst, ns);
    OlderTotal();
    SortMembers(OlderFirst, ns);
    SortSorted(OlderFirst, ns);
    var i :| 0 <= i < |OldestFewNodes(ns)| && OldestFewNodes(ns)[i].id == x;
    assert sorted[i].id == x && i < 5;
  }

  // So the first five are determined.
  lemma {:induction false} OldestAre(g: Graph, q: Request, t: NodeType, x: Id)
    requires g.NodesKeyed()
    ensures x in OldestFew(Attached(g, q, t)) <==> AmongOldest(g, q, t, x)
  {
    var ns := Attached(g, q, t);
    if x in OldestFew(ns) {
      SortedOldest(g, q, t, x);
    }
    if AmongOldest(g, q, t, x) {
      var s: seq<Node>, i: nat :|
        multiset(s) == multiset(ns) && SortedBy(OlderFirst, s) && i < |s| && i < 5 && s[i].id == x;
      AttachedSeparate(g, q, t);
      OneOrder(ns, s);
      assert OldestFewNodes(ns)[i].id == x;
    }
  }

  lemma {:induction false} AttachedSeparate(g: Graph, q: Request, t: NodeType)
    requires g.NodesKeyed()
    ensures forall s :: multiset(s) == multiset(Attached(g, q, t)) ==> Separates(OlderFirst, s)
  {
    var ns := Attached(g, q, t);
    forall s | multiset(s) == multiset(ns) ensures Separates(OlderFirst, s) {
      SameMembers(s, ns);
      forall a, b | a in s && b in s && OlderFirst(a, b) && OlderFirst(b, a) ensures a == b {
        StringLeTotal(a.id, b.id);
        assert a in ns && b in ns;
      }
    }
  }

  lemma {:induction false} CategoryAre(g: Graph, q: Request, x: Id)
    requires g.NodesKeyed()
    ensures x in CategoryIds(g, q) <==> ByCategory(g, q, x)
  {
    OldestAre(g, q, Evidence, x);
    OldestAre(g, q, Decision, x);
    OldestAre(g, q, Constraint, x);
    OldestAre(g, q, Observation, x);
  }

  // A supports or requires_output edge leads from the one to the other.
  ghost predicate Backs(g: Graph, x: Id, id: Id) {
    exists e :: g.HasEdge(e) && e.from == x && (e.etype == Supports || e.etype == RequiresOutput) && e.to == id
  }

  lemma {:induction false} OutputContextAre(g: Graph, ids: seq<Id>, x: Id)
    requires g.WellIndexed()
    ensures x in OutputContext(g, ids) <==>
      exists id :: id in ids && id in g.nodes && g.nodes[id].ntype == Output && Backs(g, x, id)
  {
    if ids != [] {
      OutputContextAre(g, ids[1..], x);
      assert forall y :: y in ids <==> y == ids[0] || y in ids[1..];
      AroundOne(g, ids[0], x);
    }
  }

  lemma {:induction false} AroundOne(g: Graph, id: Id, x: Id)
    requires g.WellIndexed()
    ensures
      (|| x in Existing(Sources(OfType(g.EdgesTo(id), Supports)), g.nodes.Keys)
       || x in Existing(Sources(OfType(g.EdgesTo(id), RequiresOutput)), g.nodes.Keys)) <==> Backs(g, x, id)
  {
    var supports, requires' := OfType(g.EdgesTo(id), Supports), OfType(g.EdgesTo(id), RequiresOutput);
    if x in Sources(supports) || x in Sources(requires') {
      var e :| (e in supports || e in requires') && e.from == x;
      assert e in g.EdgesTo(e.to) && g.HasEdge(e);
    }
    if e :| g.HasEdge(e) && e.from == x && (e.etype == Supports || e.etype == RequiresOutput) && e.to == id {
      EndpointsOf(g, e);
      assert e in supports || e in requires';
      assert x in Sources(supports) || x in Sources(requires');
    }
  }

  // ---- all phases ----

  // The ids collected before the produced ones.
  function CausalIds(g: Graph, taskId: Id): seq<Id> {
    Join(Join(Join([taskId], MarkedMandatory(g, g.order)), g.Dependencies(taskId)),
      DepthWalk.WalkFrom(g.UpstreamAdjacency(), taskId, UPSTREAM_DEPTH))
  }

  lemma {:induction false} CausalAre(g: Graph, taskId: Id, x: Id)
    requires g.WellIndexed()
    ensures x in CausalIds(g, taskId) <==> Causal(g, taskId, x)
  {
    MarkedAre(g, g.order, x);
    DependenciesAre(g, taskId, x);
  }

  lemma {:induction false} ReachedAre(g: Graph, q: Request, x: Id)
    requires g.WellIndexed()
    ensures x in CausalIds(g, q.taskId) || x in ProducedBy(g, CausalIds(g, q.taskId)) || x in CategoryIds(g, q)
      <==> Reached(g, q, x)
  {
    CausalAre(g, q.taskId, x);
    CategoryAre(g, q, x);
    ProducedByAre(g, CausalIds(g, q.taskId), x);
    forall y ensures y in CausalIds(g, q.taskId) <==> Causal(g, q.taskId, y) { CausalAre(g, q.taskId, y); }
  }

  // The required ids are exactly: what is required by cause, what such a node produces, the attached category nodes,
  // and what surrounds a required output.
  lemma {:induction false} RequiredAre(g: Graph, q: Request, x: Id)
    requires g.WellIndexed()
    ensures x in Required(g, q) <==> Reached(g, q, x) || AroundOutput(g, q, x)
  {
    var causal := CausalIds(g, q.taskId);
    var produced := Join(causal, ProducedBy(g, causal));
    var category := Join(produced, CategoryIds(g, q));
    assert Required(g, q) == Join(category, OutputContext(g, category));
    ReachedAre(g, q, x);
    OutputContextAre(g, category, x);
    forall y ensures y in category <==> Reached(g, q, y) { ReachedAre(g, q, y); }
  }

  // What the walk of depth 5 lists lies on a chain of upstream steps, and every direct neighbour is listed.
  lemma {:induction false} CausalUpstream(g: Graph, taskId: Id, x: Id)
    requires g.WellIndexed() && taskId in g.nodes
    ensures DirectlyUpstream(g, taskId, x) ==> Causal(g, taskId, x)
    ensures x in DepthWalk.WalkFrom(g.UpstreamAdjacency(), taskId, 5) ==> OnUpstreamChain(g, taskId, x)
  {
    var a := g.UpstreamAdjacency();
    UpstreamSize(g, a);
    WalkedUpstream(a, taskId, x);
    UpstreamSuccessors(g, taskId, x);
    UpstreamReaches(g, taskId, x);
  }

  lemma {:induction false} WalkedUpstream(a: Adjacency, id: Id, x: Id)
    requires Internal(a) && id in a
    ensures x in Succ(a, id) && x != id ==> x in DepthWalk.WalkFrom(a, id, 5)
    ensures x in DepthWalk.WalkFrom(a, id, 5) ==> Reaches(a, id, x)
  {
    DepthWalk.WalkSound(a, id, 5);
  }
}
