// Values of the context graph: nodes, typed edges, and a snapshot of the two edge indexes. The
// read-only algorithms work on snapshots; class ContextGraph owns the mutable original.
module GraphModel {
  import opened Common
  import opened Reachability

  // The node type names the code knows; any other text is UnknownType.
  datatype NodeType =
    | Task | Subtask | Requirement | Claim | Action
    | Observation | Evidence | Decision | Constraint | Artifact | Output
    | UnknownType(name: string)

  // The edge type names the code base compares with. The first ten are the graph's own vocabulary;
  // the closure algorithms also name "requires", "depends_on" and "DEPENDENCY", and follow edges without a type.
  datatype EdgeType =
    | RequiresCompletion | RequiresOutput | RequiresEvidence | RequiresDecision | DependsOnArtifact
    | Produces | Supports | Contradicts | Invalidates | RelatedTo
    | Requires | DependsOn | Dependency | Untyped
    | Other(name: string)
  {
    // Membership in the graph's EDGE_TYPES list.
    predicate Known() {
      !Requires? && !DependsOn? && !Dependency? && !Untyped? && !Other?
    }
  }

  // mandatory stands for metadata.admission == "MANDATORY".
  datatype Node = Node(
    id: Id, ntype: NodeType, content: string, verified: bool, mandatory: bool,
    createdAt: int, updatedAt: int)

  datatype Edge = Edge(from: Id, to: Id, etype: EdgeType, weight: real) {
    // Edges are identified by their endpoints and type; the weight takes no part.
    predicate SameKey(e: Edge) {
      from == e.from && to == e.to && etype == e.etype
    }
  }

  function OfType(es: seq<Edge>, t: EdgeType): (r: seq<Edge>)
    ensures forall e :: e in r <==> e in es && e.etype == t
  {
    if es == [] then []
    else if es[0].etype == t then [es[0]] + OfType(es[1..], t)
    else OfType(es[1..], t)
  }

  lemma {:induction false} AllOfType(es: seq<Edge>, t: EdgeType)
    requires forall e :: e in es ==> e.etype == t
    ensures OfType(es, t) == es
    ensures forall u: EdgeType :: u != t ==> OfType(es, u) == []
  {
    if es != [] {
      assert es[0] in es;
      AllOfType(es[1..], t);
    }
  }

  function Targets(es: seq<Edge>): (r: seq<Id>)
    ensures |r| == |es| && forall i :: 0 <= i < |es| ==> r[i] == es[i].to
    ensures forall y :: y in r <==> exists e :: e in es && e.to == y
  {
    seq(|es|, i requires 0 <= i < |es| => es[i].to)
  }

  function Sources(es: seq<Edge>): (r: seq<Id>)
    ensures |r| == |es| && forall i :: 0 <= i < |es| ==> r[i] == es[i].from
    ensures forall y :: y in r <==> exists e :: e in es && e.from == y
  {
    seq(|es|, i requires 0 <= i < |es| => es[i].from)
  }

  function Existing(ids: seq<Id>, nodes: set<Id>): (r: seq<Id>)
    ensures forall x :: x in r <==> x in ids && x in nodes
  {
    if ids == [] then []
    else if ids[0] in nodes then [ids[0]] + Existing(ids[1..], nodes)
    else Existing(ids[1..], nodes)
  }

  lemma {:induction false} ExistingAll(ids: seq<Id>, nodes: set<Id>)
    requires forall x :: x in ids ==> x in nodes
    ensures Existing(ids, nodes) == ids
  {
    if ids != [] {
      ExistingAll(ids[1..], nodes);
    }
  }

  // order is the insertion order of the node map.
  datatype Graph = Graph(
    nodes: map<Id, Node>, order: seq<Id>,
    from: map<Id, seq<Edge>>, to: map<Id, seq<Edge>>) {

    function EdgesFrom(id: Id): seq<Edge> {
      if id in from then from[id] else []
    }

    function EdgesTo(id: Id): seq<Edge> {
      if id in to then to[id] else []
    }

    ghost predicate HasEdge(e: Edge) {
      e in EdgesFrom(e.from)
    }

    // Each index files an edge under its own endpoint, and both hold the same edges.
    ghost predicate Filed() {
      && (forall x, e :: e in EdgesFrom(x) ==> e.from == x)
      && (forall x, e :: e in EdgesTo(x) ==> e.to == x)
    }

    ghost predicate Mirrored() {
      Filed() && forall e :: HasEdge(e) <==> e in EdgesTo(e.to)
    }

    ghost predicate EdgesDistinct() {
      && (forall x :: DistinctKeys(EdgesFrom(x)))
      && (forall x :: DistinctKeys(EdgesTo(x)))
    }

    ghost predicate NodesKeyed() {
      && NoDup(order) && (forall x :: x in order <==> x in nodes)
      && (forall x :: x in nodes ==> nodes[x].id == x && x != "")
    }

    ghost predicate EndpointsExist() {
      from.Keys <= nodes.Keys && to.Keys <= nodes.Keys
    }

    ghost predicate TypesKnown() {
      forall e :: HasEdge(e) ==> e.etype.Known()
    }

    ghost predicate WellIndexed() {
      NodesKeyed() && EndpointsExist() && Mirrored() && EdgesDistinct() && TypesKnown()
    }

    // ---- what each public mutation does to the whole graph ----

    function NodeError(n: Node): Option<GraphError> {
      if n.id == "" then Some(EmptyId)
      else if n.ntype.UnknownType? then Some(InvalidType)
      else None
    }

    // A node that replaces another keeps its creation time and its place in the order.
    function StampedNode(n: Node, now: int): Node {
      var created := if n.id in nodes && nodes[n.id].createdAt != 0 then nodes[n.id].createdAt else now;
      n.(createdAt := created, updatedAt := now)
    }

    function WithNode(n: Node, now: int): Graph {
      Graph(nodes[n.id := StampedNode(n, now)], if n.id in nodes then order else order + [n.id], from, to)
    }

    function WithPatch(id: Id, p: NodePatch, now: int): Graph {
      if id in nodes then Graph(nodes[id := Patched(nodes[id], p, now)], order, from, to) else this
    }

    function WithoutNode(id: Id): Graph {
      if id !in nodes then this
      else Graph(nodes - {id}, WithoutId(order, id),
        map k | k in from && k != id :: Avoiding(from[k], id),
        map k | k in to && k != id :: Avoiding(to[k], id))
    }

    function EdgeError(e: EdgeSpec): Option<GraphError> {
      if e.from == "" then Some(EmptyFrom)
      else if e.to == "" then Some(EmptyTo)
      else if !e.etype.Known() then Some(InvalidType)
      else if e.from !in nodes then Some(MissingSource)
      else if e.to !in nodes then Some(MissingTarget)
      else None
    }

    predicate Duplicate(e: EdgeSpec) {
      exists x :: x in EdgesFrom(e.from) && x.to == e.to && x.etype == e.etype
    }

    function WithEdge(e: EdgeSpec): Graph {
      if Duplicate(e) then this
      else Graph(nodes, order,
        from[e.from := EdgesFrom(e.from) + [e.Entry()]],
        to[e.to := EdgesTo(e.to) + [e.Entry()]])
    }

    // requires_output and depends_on_artifact successors: the relation searched for cycles.
    function CycleEdges(id: Id): seq<Edge> {
      OfType(EdgesFrom(id), RequiresOutput) + OfType(EdgesFrom(id), DependsOnArtifact)
    }

    function CycleAdjacency(): Adjacency {
      map id | id in nodes :: Targets(CycleEdges(id))
    }

    function DependencyEdges(id: Id): seq<Edge> {
      OfType(EdgesFrom(id), RequiresOutput)
      + OfType(EdgesFrom(id), RequiresCompletion)
      + OfType(EdgesFrom(id), RequiresEvidence)
      + OfType(EdgesFrom(id), RequiresDecision)
      + OfType(EdgesFrom(id), DependsOnArtifact)
    }

    // getDependencies as ids: existing targets of the five dependency edge types.
    function Dependencies(id: Id): seq<Id> {
      Existing(Targets(DependencyEdges(id)), nodes.Keys)
    }

    function Producers(id: Id): seq<Id> {
      Existing(Sources(OfType(EdgesTo(id), Produces)), nodes.Keys)
    }

    // One upstream step: what a node depends on, then what produces it.
    function UpstreamAdjacency(): Adjacency {
      map id | id in nodes :: Dependencies(id) + Producers(id)
    }

    // One downstream step: nodes declaring a dependency on this one.
    function Dependents(id: Id): seq<Id> {
      Existing(Sources(DownstreamEdges(EdgesTo(id))), nodes.Keys)
    }

    function DownstreamAdjacency(): Adjacency {
      map id | id in nodes :: Dependents(id)
    }
  }

  function DownstreamEdges(es: seq<Edge>): (r: seq<Edge>)
    ensures forall e :: e in r <==>
      e in es && (e.etype == RequiresOutput || e.etype == RequiresCompletion || e.etype == DependsOnArtifact)
  {
    if es == [] then []
    else if es[0].etype == RequiresOutput || es[0].etype == RequiresCompletion || es[0].etype == DependsOnArtifact then
      [es[0]] + DownstreamEdges(es[1..])
    else DownstreamEdges(es[1..])
  }

  datatype GraphError = EmptyId | InvalidType | EmptyFrom | EmptyTo | MissingSource | MissingTarget

  datatype EdgeSpec = EdgeSpec(from: Id, to: Id, etype: EdgeType, weight: Option<real>) {
    function Entry(): Edge {
      Edge(from, to, etype, if weight.Some? then weight.value else 1.0)
    }
  }

  datatype NodePatch = NodePatch(
    ntype: Option<NodeType>, content: Option<string>, verified: Option<bool>,
    mandatory: Option<bool>, createdAt: Option<int>)

  function Or<T>(o: Option<T>, default: T): T {
    if o.Some? then o.value else default
  }

  function Patched(n: Node, p: NodePatch, now: int): Node {
    Node(n.id, Or(p.ntype, n.ntype), Or(p.content, n.content), Or(p.verified, n.verified),
      Or(p.mandatory, n.mandatory), Or(p.createdAt, n.createdAt), now)
  }

  function WithoutId(order: seq<Id>, id: Id): (r: seq<Id>)
    ensures forall x :: x in r <==> x in order && x != id
  {
    if order == [] then []
    else if order[0] == id then WithoutId(order[1..], id)
    else [order[0]] + WithoutId(order[1..], id)
  }

  lemma {:induction false} WithoutIdNoDup(order: seq<Id>, id: Id)
    requires NoDup(order)
    ensures NoDup(WithoutId(order, id))
  {
    if order != [] {
      WithoutIdNoDup(order[1..], id);
      assert order[0] !in order[1..];
    }
  }

  predicate DistinctKeys(es: seq<Edge>) {
    forall i, j :: 0 <= i < j < |es| ==> !es[i].SameKey(es[j])
  }

  // The first entry with e's key, removed: Array.findIndex followed by splice.
  function RemoveFirst(es: seq<Edge>, e: Edge): seq<Edge> {
    if es == [] then []
    else if es[0].SameKey(e) then es[1..]
    else [es[0]] + RemoveFirst(es[1..], e)
  }

  function Excluding(es: seq<Edge>, removed: seq<Edge>): (r: seq<Edge>)
    ensures forall e :: e in r <==> e in es && e !in removed
  {
    if es == [] then []
    else if es[0] in removed then Excluding(es[1..], removed)
    else [es[0]] + Excluding(es[1..], removed)
  }

  // The edges of es that do not touch id, in order.
  function Avoiding(es: seq<Edge>, id: Id): (r: seq<Edge>)
    ensures forall e :: e in r <==> e in es && e.from != id && e.to != id
  {
    if es == [] then []
    else if es[0].from == id || es[0].to == id then Avoiding(es[1..], id)
    else [es[0]] + Avoiding(es[1..], id)
  }

  lemma {:induction false} AvoidingDistinct(es: seq<Edge>, id: Id)
    requires DistinctKeys(es)
    ensures DistinctKeys(Avoiding(es, id))
  {
    if es != [] {
      AvoidingDistinct(es[1..], id);
    }
  }

  lemma {:induction false} ExcludingNone(es: seq<Edge>)
    ensures Excluding(es, []) == es
  {
    if es != [] {
      ExcludingNone(es[1..]);
    }
  }

  // Splicing one more edge out of a list whose entries have distinct keys.
  lemma {:induction false} RemoveFirstExcludes(es: seq<Edge>, removed: seq<Edge>, e: Edge)
    requires DistinctKeys(es) && e !in removed
    requires forall x :: x in es && x.SameKey(e) ==> x == e
    ensures RemoveFirst(Excluding(es, removed), e) == Excluding(es, removed + [e])
  {
    if es != [] {
      if es[0] == e {
        forall x | x in es[1..] ensures x != e {
          var i :| 0 <= i < |es[1..]| && es[1..][i] == x;
          assert es[i + 1] == x;
        }
        ExcludingSame(es[1..], removed, removed + [e]);
      } else {
        RemoveFirstExcludes(es[1..], removed, e);
      }
    }
  }

  lemma {:induction false} ExcludingSame(es: seq<Edge>, a: seq<Edge>, b: seq<Edge>)
    requires forall x :: x in es ==> (x in a <==> x in b)
    ensures Excluding(es, a) == Excluding(es, b)
  {
    if es != [] {
      ExcludingSame(es[1..], a, b);
    }
  }

  lemma {:induction false} ExcludingIsAvoiding(es: seq<Edge>, removed: seq<Edge>, id: Id)
    requires forall x :: x in es ==> (x in removed <==> x.from == id || x.to == id)
    ensures Excluding(es, removed) == Avoiding(es, id)
  {
    if es != [] {
      ExcludingIsAvoiding(es[1..], removed, id);
    }
  }
}
