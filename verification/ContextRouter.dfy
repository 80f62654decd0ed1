// Task-aware context selection: collect what a task requires, then admit it class by class under a token
// budget. Relevance scores and prompt relevance are given functions.
module ContextRouter {
  import opened Common
  import opened Ordering
  import opened Reachability
  import opened GraphModel
  import DepthWalk

  datatype Admission = Mandatory | Conditional | Optional

  datatype Status = Complete | Partial | Insufficient | Conflicted

  // relevance scores a node for the task; related says whether a node is prompt-relevant; promptAware is
  // whether the caller supplied prompt tokens at all.
  datatype Request = Request(
    taskId: Id, maxTokens: int, promptAware: bool, related: Node -> bool, relevance: Node -> real)

  datatype Omitted = Omitted(id: Id, admission: Admission)

  // What is reported missing, by whom it is required, and which required nodes contradict each other.
  datatype Gap =
    | NoTask(task: Id)
    | NoNode(id: Id, requiredBy: Id)
    | NoTarget(id: Id, etype: EdgeType, requiredBy: Id)
    | Contradiction(node: Id, other: Id)

  // required and contradictions are the counts of the summary; its other counts are the lengths of the lists.
  datatype Resolution = Resolution(
    nodes: seq<Node>, edges: seq<Edge>, omitted: seq<Omitted>, tokenEstimate: int, missing: seq<Gap>,
    required: nat, contradictions: nat, complete: bool, sufficient: bool, budgetOverflow: bool, status: Status)

  const UPSTREAM_DEPTH := 5
  const MAX_CATEGORY_NODES_PER_TYPE := 5

  function NodeTokens(n: Node): nat {
    (|n.content| + 3) / 4 + 20
  }

  predicate CategoryType(t: NodeType) {
    t.Evidence? || t.Decision? || t.Constraint? || t.Observation?
  }

  function AdmissionClass(g: Graph, taskId: Id, n: Node): Admission {
    if n.id == taskId || n.ntype.Task? || n.ntype.Requirement? || (n.ntype.Output? && n.mandatory) then Mandatory
    else if (exists e :: e in g.EdgesTo(taskId) && (e.from == n.id || e.to == n.id)) && !CategoryType(n.ntype) then Mandatory
    else if n.ntype.Evidence? || n.ntype.Decision? || n.ntype.Constraint? then Conditional
    else Optional
  }

  // ---- phases 1 to 3: the required ids, in insertion order ----

  function Join(required: seq<Id>, ids: seq<Id>): (r: seq<Id>)
    requires NoDup(required)
    ensures NoDup(r) && forall x :: x in r <==> x in required || x in ids
    decreases |ids|
  {
    if ids == [] then required
    else Join(if ids[0] in required then required else required + [ids[0]], ids[1..])
  }

  function MarkedMandatory(g: Graph, order: seq<Id>): (r: seq<Id>)
    ensures forall x :: x in r <==> x in order && x in g.nodes && g.nodes[x].mandatory
  {
    if order == [] then []
    else if order[0] in g.nodes && g.nodes[order[0]].mandatory then [order[0]] + MarkedMandatory(g, order[1..])
    else MarkedMandatory(g, order[1..])
  }

  function ProducedBy(g: Graph, ids: seq<Id>): (r: seq<Id>)
    ensures forall y :: y in r ==> exists e :: (exists x :: e in g.EdgesFrom(x)) && e.to == y
  {
    if ids == [] then [] else Targets(OfType(g.EdgesFrom(ids[0]), Produces)) + ProducedBy(g, ids[1..])
  }

  // The category nodes attached to the task, in edge order.
  function Attached(g: Graph, q: Request, t: NodeType): seq<Node> {
    Relevant(g, q, t, Sources(g.EdgesTo(q.taskId)))
    + Relevant(g, q, t, Targets(OfType(g.EdgesFrom(q.taskId), RelatedTo)))
  }

  function Relevant(g: Graph, q: Request, t: NodeType, ids: seq<Id>): (r: seq<Node>)
    ensures forall n :: n in r ==> exists x :: x in ids && x in g.nodes && g.nodes[x] == n
  {
    if ids == [] then []
    else if ids[0] in g.nodes && g.nodes[ids[0]].ntype == t && q.related(g.nodes[ids[0]]) then
      [g.nodes[ids[0]]] + Relevant(g, q, t, ids[1..])
    else Relevant(g, q, t, ids[1..])
  }

  predicate OlderFirst(a: Node, b: Node) {
    a.createdAt < b.createdAt || (a.createdAt == b.createdAt && StringLe(a.id, b.id))
  }

  function NodeIds(ns: seq<Node>): (r: seq<Id>)
    ensures |r| == |ns| && forall i :: 0 <= i < |ns| ==> r[i] == ns[i].id
    ensures forall x :: x in r <==> exists n :: n in ns && n.id == x
  {
    seq(|ns|, i requires 0 <= i < |ns| => ns[i].id)
  }

  // At most five per type, oldest first.
  function OldestFewNodes(ns: seq<Node>): seq<Node> {
    var sorted := Sort(OlderFirst, ns);
    if |sorted| <= MAX_CATEGORY_NODES_PER_TYPE then sorted else sorted[..MAX_CATEGORY_NODES_PER_TYPE]
  }

  function OldestFew(ns: seq<Node>): seq<Id> {
    NodeIds(OldestFewNodes(ns))
  }

  function CategoryIds(g: Graph, q: Request): seq<Id> {
    if !q.promptAware then []
    else
      OldestFew(Attached(g, q, Evidence)) + OldestFew(Attached(g, q, Decision))
      + OldestFew(Attached(g, q, Constraint)) + OldestFew(Attached(g, q, Observation))
  }

  // Supporters of a required output, and what declares it requires that output.
  function OutputContext(g: Graph, ids: seq<Id>): (r: seq<Id>)
    ensures forall y :: y in r ==> y in g.nodes
  {
    if ids == [] then []
    else if ids[0] in g.nodes && g.nodes[ids[0]].ntype.Output? then
      Existing(Sources(OfType(g.EdgesTo(ids[0]), Supports)), g.nodes.Keys)
      + Existing(Sources(OfType(g.EdgesTo(ids[0]), RequiresOutput)), g.nodes.Keys)
      + OutputContext(g, ids[1..])
    else OutputContext(g, ids[1..])
  }

  function Required(g: Graph, q: Request): (r: seq<Id>)
    ensures NoDup(r) && q.taskId in r
    ensures forall x :: x in g.Dependencies(q.taskId) ==> x in r
    ensures forall x :: x in DepthWalk.WalkFrom(g.UpstreamAdjacency(), q.taskId, UPSTREAM_DEPTH) ==> x in r
    ensures forall x :: x in MarkedMandatory(g, g.order) ==> x in r
  {
    var start := Join(Join([q.taskId], MarkedMandatory(g, g.order)), g.Dependencies(q.taskId));
    var upstream := Join(start, DepthWalk.WalkFrom(g.UpstreamAdjacency(), q.taskId, UPSTREAM_DEPTH));
    var produced := Join(upstream, ProducedBy(g, upstream));
    var category := Join(produced, CategoryIds(g, q));
    Join(category, OutputContext(g, category))
  }

  // The fixed depth of 5 covers every transitive dependency in graphs of at most six nodes.
  lemma SmallGraphsCovered(g: Graph, q: Request, x: Id)
    requires q.taskId in g.nodes && |g.UpstreamAdjacency()| <= UPSTREAM_DEPTH + 1
    requires Internal(g.UpstreamAdjacency()) && Reaches(g.UpstreamAdjacency(), q.taskId, x)
    ensures x in Required(g, q)
  {
    var a := g.UpstreamAdjacency();
    DepthWalk.WalkComplete(a, q.taskId, UPSTREAM_DEPTH);
    InReachSet(a, q.taskId, x);
    if x != q.taskId {
      assert x in Elems(DepthWalk.WalkFrom(a, q.taskId, UPSTREAM_DEPTH));
    }
  }

  // ---- phases 4 and 5: missing nodes and contradictions ----

  function RequiredBy(g: Graph, taskId: Id, id: Id): Id {
    if g.EdgesTo(id) != [] then g.EdgesTo(id)[0].from else taskId
  }

  // What each id of a list contributes, one after the other.
  function Collected(gaps: Id -> seq<Gap>, ids: seq<Id>): seq<Gap> {
    if ids == [] then [] else gaps(ids[0]) + Collected(gaps, ids[1..])
  }

  lemma {:induction false} CollectedAre(gaps: Id -> seq<Gap>, ids: seq<Id>, gap: Gap)
    ensures gap in Collected(gaps, ids) <==> exists x :: x in ids && gap in gaps(x)
  {
    if ids != [] {
      CollectedAre(gaps, ids[1..], gap);
      assert forall x :: x in ids <==> x == ids[0] || x in ids[1..];
    }
  }

  lemma {:induction false} NoneCollected(gaps: Id -> seq<Gap>, ids: seq<Id>)
    requires forall x :: x in ids ==> gaps(x) == []
    ensures Collected(gaps, ids) == []
  {
    if ids != [] {
      assert ids[0] in ids;
      NoneCollected(gaps, ids[1..]);
    }
  }

  // A required id that names no node.
  function Absence(g: Graph, taskId: Id): Id -> seq<Gap> {
    (id: Id) => if id in g.nodes then [] else [NoNode(id, RequiredBy(g, taskId, id))]
  }

  // The dependency edges of a node that lead to no node.
  function DanglingEdges(g: Graph, id: Id, es: seq<Edge>): seq<Gap> {
    if es == [] then []
    else
      (if DependencyType(es[0].etype) && es[0].to !in g.nodes then [NoTarget(es[0].to, es[0].etype, id)] else [])
      + DanglingEdges(g, id, es[1..])
  }

  function Dangling(g: Graph): Id -> seq<Gap> {
    (id: Id) => DanglingEdges(g, id, g.EdgesFrom(id))
  }

  predicate DependencyType(t: EdgeType) {
    t.RequiresOutput? || t.RequiresCompletion? || t.RequiresEvidence? || t.RequiresDecision? || t.DependsOnArtifact?
  }

  function Contradicting(g: Graph, id: Id): seq<Id> {
    Existing(Targets(OfType(g.EdgesFrom(id), Contradicts)), g.nodes.Keys)
    + Existing(Sources(OfType(g.EdgesTo(id), Contradicts)), g.nodes.Keys)
  }

  function Pairs(id: Id, others: seq<Id>): (r: seq<Gap>)
    ensures |r| == |others| && forall i :: 0 <= i < |r| ==> r[i] == Contradiction(id, others[i])
  {
    seq(|others|, i requires 0 <= i < |others| => Contradiction(id, others[i]))
  }

  function Contradictions(g: Graph, required: set<Id>): Id -> seq<Gap> {
    (id: Id) => Pairs(id, Existing(Contradicting(g, id), required))
  }

  lemma {:induction false} DanglingAre(g: Graph, id: Id, es: seq<Edge>, gap: Gap)
    ensures gap in DanglingEdges(g, id, es) <==>
      exists e :: e in es && DependencyType(e.etype) && e.to !in g.nodes && gap == NoTarget(e.to, e.etype, id)
  {
    if es != [] {
      DanglingAre(g, id, es[1..], gap);
      assert forall e :: e in es <==> e == es[0] || e in es[1..];
    }
  }

  ghost predicate Dangles(g: Graph, id: Id, gap: Gap) {
    exists e :: e in g.EdgesFrom(id)
      && (e.etype == RequiresOutput || e.etype == RequiresCompletion || e.etype == RequiresEvidence
          || e.etype == RequiresDecision || e.etype == DependsOnArtifact)
      && e.to !in g.nodes && gap == NoTarget(e.to, e.etype, id)
  }

  // A required id that names no node, reported for the source of its first incoming edge, or else for the task.
  predicate Unmet(g: Graph, taskId: Id, x: Id, gap: Gap) {
    x !in g.nodes && gap == NoNode(x, if g.EdgesTo(x) == [] then taskId else g.EdgesTo(x)[0].from)
  }

  lemma {:induction false} AbsenceAre(g: Graph, taskId: Id, x: Id, gap: Gap)
    ensures gap in Absence(g, taskId)(x) <==> Unmet(g, taskId, x, gap)
  {
  }

  // A contradicts edge joins the two nodes, whichever way.
  ghost predicate Opposed(g: Graph, x: Id, y: Id) {
    || (exists e :: e in g.EdgesFrom(x) && e.etype == Contradicts && e.to == y)
    || (exists e :: e in g.EdgesTo(x) && e.etype == Contradicts && e.from == y)
  }

  lemma {:induction false} ContradictingAre(g: Graph, x: Id, y: Id)
    ensures y in Contradicting(g, x) <==> y in g.nodes && Opposed(g, x, y)
  {
    var out, into := OfType(g.EdgesFrom(x), Contradicts), OfType(g.EdgesTo(x), Contradicts);
    assert y in Targets(out) <==> exists e :: e in g.EdgesFrom(x) && e.etype == Contradicts && e.to == y by {
      if e :| e in g.EdgesFrom(x) && e.etype == Contradicts && e.to == y { assert e in out; }
    }
    assert y in Sources(into) <==> exists e :: e in g.EdgesTo(x) && e.etype == Contradicts && e.from == y by {
      if e :| e in g.EdgesTo(x) && e.etype == Contradicts && e.from == y { assert e in into; }
    }
  }

  ghost predicate Clashes(g: Graph, required: set<Id>, x: Id, gap: Gap) {
    exists y :: y in required && y in g.nodes && Opposed(g, x, y) && gap == Contradiction(x, y)
  }

  lemma PairsAre(id: Id, others: seq<Id>, gap: Gap)
    ensures gap in Pairs(id, others) <==> exists y :: y in others && gap == Contradiction(id, y)
  {
    if y :| y in others && gap == Contradiction(id, y) {
      var i :| 0 <= i < |others| && others[i] == y;
      assert Pairs(id, others)[i] == gap;
    }
  }

  lemma ClashesAre(g: Graph, required: set<Id>, x: Id, gap: Gap)
    ensures gap in Contradictions(g, required)(x) <==> Clashes(g, required, x, gap)
  {
    var others := Existing(Contradicting(g, x), required);
    PairsAre(x, others, gap);
    forall y ensures y in others <==> y in required && y in g.nodes && Opposed(g, x, y) {
      ContradictingAre(g, x, y);
    }
  }

  // ---- phase 6: admission ----

  // Higher relevance first, then id.
  predicate Precedes(q: Request, a: Node, b: Node) {
    q.relevance(a) > q.relevance(b) || (q.relevance(a) == q.relevance(b) && StringLe(a.id, b.id))
  }

  function ByRelevance(q: Request): (Node, Node) -> bool {
    (a: Node, b: Node) => Precedes(q, a, b)
  }

  function OfClass(g: Graph, q: Request, ns: seq<Node>, c: Admission): (r: seq<Node>)
    ensures forall n :: n in r <==> n in ns && AdmissionClass(g, q.taskId, n) == c
  {
    if ns == [] then []
    else if AdmissionClass(g, q.taskId, ns[0]) == c then [ns[0]] + OfClass(g, q, ns[1..], c)
    else OfClass(g, q, ns[1..], c)
  }

  function Group(g: Graph, q: Request, ns: seq<Node>, c: Admission): seq<Node> {
    Sort(ByRelevance(q), OfClass(g, q, ns, c))
  }

  function Total(ns: seq<Node>): nat {
    if ns == [] then 0 else NodeTokens(ns[0]) + Total(ns[1..])
  }

  // Those of a list that fit one after another, from a running total.
  function Fitting(ns: seq<Node>, total: int, max: int): seq<Node> {
    if ns == [] then []
    else if total + NodeTokens(ns[0]) <= max then [ns[0]] + Fitting(ns[1..], total + NodeTokens(ns[0]), max)
    else Fitting(ns[1..], total, max)
  }

  function Skipped(ns: seq<Node>, total: int, max: int): seq<Node> {
    if ns == [] then []
    else if total + NodeTokens(ns[0]) <= max then Skipped(ns[1..], total + NodeTokens(ns[0]), max)
    else [ns[0]] + Skipped(ns[1..], total, max)
  }

  lemma {:induction false} TotalAppend(a: seq<Node>, b: seq<Node>)
    ensures Total(a + b) == Total(a) + Total(b)
  {
    if a == [] {
      assert a + b == b;
    } else {
      assert (a + b)[1..] == a[1..] + b;
      TotalAppend(a[1..], b);
    }
  }

  // One list filled from a total: what was kept, what was left out.
  ghost predicate Filled(ns: seq<Node>, total: int, max: int, kept: seq<Node>, out: seq<Node>) {
    && multiset(kept) + multiset(out) == multiset(ns)
    && (total <= max ==> total + Total(kept) <= max)
    && (total > max ==> Total(kept) == 0)
    && (forall n :: n in out ==> total + Total(kept) + NodeTokens(n) > max)
  }

  lemma {:induction false} FillSplits(ns: seq<Node>, total: int, max: int)
    ensures multiset(Fitting(ns, total, max)) + multiset(Skipped(ns, total, max)) == multiset(ns)
  {
    if ns != [] {
      assert ns == [ns[0]] + ns[1..];
      if total + NodeTokens(ns[0]) <= max {
        FillSplits(ns[1..], total + NodeTokens(ns[0]), max);
      } else {
        FillSplits(ns[1..], total, max);
      }
    }
  }

  lemma {:induction false} FillBounds(ns: seq<Node>, total: int, max: int)
    ensures total <= max ==> total + Total(Fitting(ns, total, max)) <= max
    ensures total > max ==> Total(Fitting(ns, total, max)) == 0
    ensures forall n :: n in Skipped(ns, total, max) ==> total + Total(Fitting(ns, total, max)) + NodeTokens(n) > max
  {
    if ns != [] {
      if total + NodeTokens(ns[0]) <= max {
        FillBounds(ns[1..], total + NodeTokens(ns[0]), max);
      } else {
        FillBounds(ns[1..], total, max);
      }
    }
  }

  // Filling keeps every item once, stays within the maximum, and leaves out only what no longer fits.
  lemma FillFacts(ns: seq<Node>, total: int, max: int)
    ensures Filled(ns, total, max, Fitting(ns, total, max), Skipped(ns, total, max))
  {
    FillSplits(ns, total, max);
    FillBounds(ns, total, max);
  }

  method Admit(ns: seq<Node>, c: Admission, max: int, total0: int, selected0: seq<Node>, omitted0: seq<Omitted>)
    returns (total: int, selected: seq<Node>, omitted: seq<Omitted>)
    ensures selected == selected0 + Fitting(ns, total0, max)
    ensures omitted == omitted0 + OmittedAs(Skipped(ns, total0, max), c)
    ensures total == total0 + Total(Fitting(ns, total0, max))
  {
    total, selected, omitted := total0, selected0, omitted0;
    assert ns[0..] == ns;
    for i := 0 to |ns|
      invariant selected + Fitting(ns[i..], total, max) == selected0 + Fitting(ns, total0, max)
      invariant omitted + OmittedAs(Skipped(ns[i..], total, max), c) == omitted0 + OmittedAs(Skipped(ns, total0, max), c)
      invariant total + Total(Fitting(ns[i..], total, max)) == total0 + Total(Fitting(ns, total0, max))
    {
      var n := ns[i];
      var rest := ns[i + 1..];
      assert ns[i..][1..] == rest;
      if total + NodeTokens(n) <= max {
        assert selected + ([n] + Fitting(rest, total + NodeTokens(n), max))
          == (selected + [n]) + Fitting(rest, total + NodeTokens(n), max);
        selected := selected + [n];
        total := total + NodeTokens(n);
      } else {
        assert OmittedAs([n] + Skipped(rest, total, max), c) == [Omitted(n.id, c)] + OmittedAs(Skipped(rest, total, max), c);
        assert omitted + ([Omitted(n.id, c)] + OmittedAs(Skipped(rest, total, max), c))
          == (omitted + [Omitted(n.id, c)]) + OmittedAs(Skipped(rest, total, max), c);
        omitted := omitted + [Omitted(n.id, c)];
      }
    }
  }

  function OmittedAs(ns: seq<Node>, c: Admission): seq<Omitted> {
    seq(|ns|, i requires 0 <= i < |ns| => Omitted(ns[i].id, c))
  }

  // The specification of selection over three groups: all of the first, then what fits of the others.
  function Selected(m: seq<Node>, c: seq<Node>, o: seq<Node>, max: int): seq<Node> {
    var kept := Fitting(c, Total(m), max);
    m + kept + Fitting(o, Total(m) + Total(kept), max)
  }

  function OutOf(m: seq<Node>, c: seq<Node>, o: seq<Node>, max: int): (seq<Node>, seq<Node>) {
    var kept := Fitting(c, Total(m), max);
    (Skipped(c, Total(m), max), Skipped(o, Total(m) + Total(kept), max))
  }

  function OmittedOf(m: seq<Node>, c: seq<Node>, o: seq<Node>, max: int): seq<Omitted> {
    var (outC, outO) := OutOf(m, c, o, max);
    OmittedAs(outC, Conditional) + OmittedAs(outO, Optional)
  }

  function Selection(g: Graph, q: Request, ns: seq<Node>): seq<Node> {
    Selected(Group(g, q, ns, Mandatory), Group(g, q, ns, Conditional), Group(g, q, ns, Optional), q.maxTokens)
  }

  // The nodes left out, in the order they are reported.
  function LeftOut(g: Graph, q: Request, ns: seq<Node>): seq<Node> {
    var (outC, outO) :=
      OutOf(Group(g, q, ns, Mandatory), Group(g, q, ns, Conditional), Group(g, q, ns, Optional), q.maxTokens);
    outC + outO
  }

  function Omissions(g: Graph, q: Request, ns: seq<Node>): seq<Omitted> {
    OmittedOf(Group(g, q, ns, Mandatory), Group(g, q, ns, Conditional), Group(g, q, ns, Optional), q.maxTokens)
  }

  // ---- what admission guarantees ----

  ghost predicate DistinctNodes(ns: seq<Node>) {
    forall a, b :: a in ns && b in ns && a.id == b.id ==> a == b
  }

  lemma RelevanceOrder(q: Request, ns: seq<Node>)
    requires DistinctNodes(ns)
    ensures TotalPreorder(ByRelevance(q)) && Separates(ByRelevance(q), ns)
  {
    var le := ByRelevance(q);
    forall a, b ensures le(a, b) || le(b, a) {
      StringLeTotal(a.id, b.id);
    }
    forall a, b, c | le(a, b) && le(b, c) ensures le(a, c) {
      if q.relevance(a) == q.relevance(b) == q.relevance(c) {
        StringLeTransitive(a.id, b.id, c.id);
      }
    }
    forall a, b | a in ns && b in ns && le(a, b) && le(b, a) ensures a == b {
      StringLeTotal(a.id, b.id);
    }
  }

  lemma {:induction false} OfClassCount(g: Graph, q: Request, ns: seq<Node>, c: Admission, n: Node)
    ensures multiset(OfClass(g, q, ns, c))[n] == if AdmissionClass(g, q.taskId, n) == c then multiset(ns)[n] else 0
  {
    if ns != [] {
      OfClassCount(g, q, ns[1..], c, n);
      assert ns == [ns[0]] + ns[1..];
    }
  }

  lemma GroupCount(g: Graph, q: Request, ns: seq<Node>, c: Admission, n: Node)
    ensures multiset(Group(g, q, ns, c))[n] == if AdmissionClass(g, q.taskId, n) == c then multiset(ns)[n] else 0
  {
    OfClassCount(g, q, ns, c, n);
    SortMembers(ByRelevance(q), OfClass(g, q, ns, c));
  }

  lemma ClassesPartition(g: Graph, q: Request, ns: seq<Node>)
    ensures multiset(Group(g, q, ns, Mandatory)) + multiset(Group(g, q, ns, Conditional))
      + multiset(Group(g, q, ns, Optional)) == multiset(ns)
  {
    var m, c, o := Group(g, q, ns, Mandatory), Group(g, q, ns, Conditional), Group(g, q, ns, Optional);
    forall n ensures (multiset(m) + multiset(c) + multiset(o))[n] == multiset(ns)[n] {
      GroupCount(g, q, ns, Mandatory, n);
      GroupCount(g, q, ns, Conditional, n);
      GroupCount(g, q, ns, Optional, n);
    }
  }

  lemma GroupOrderIndependent(g: Graph, q: Request, ns: seq<Node>, ms: seq<Node>, c: Admission)
    requires DistinctNodes(ns) && multiset(ns) == multiset(ms)
    ensures Group(g, q, ns, c) == Group(g, q, ms, c)
  {
    var a, b := OfClass(g, q, ns, c), OfClass(g, q, ms, c);
    forall n ensures multiset(a)[n] == multiset(b)[n] {
      OfClassCount(g, q, ns, c, n);
      OfClassCount(g, q, ms, c, n);
    }
    RelevanceOrder(q, a);
    SortPermutationInvariant(ByRelevance(q), a, b);
  }

  // The selected list does not depend on the order in which the required nodes were collected.
  lemma SelectionOrderIndependent(g: Graph, q: Request, ns: seq<Node>, ms: seq<Node>)
    requires DistinctNodes(ns) && multiset(ns) == multiset(ms)
    ensures Selection(g, q, ns) == Selection(g, q, ms)
  {
    GroupOrderIndependent(g, q, ns, ms, Mandatory);
    GroupOrderIndependent(g, q, ns, ms, Conditional);
    GroupOrderIndependent(g, q, ns, ms, Optional);
  }

  // Selected and left-out nodes split the required ones; nothing mandatory is left out; the selected total
  // exceeds the budget only when the mandatory nodes alone do; nothing left out would still fit.
  ghost predicate Admitted(g: Graph, q: Request, ns: seq<Node>, selected: seq<Node>, out: seq<Node>) {
    var mandatory := Total(Group(g, q, ns, Mandatory));
    && multiset(selected) + multiset(out) == multiset(ns)
    && (forall n :: n in out ==> AdmissionClass(g, q.taskId, n) != Mandatory)
    && (forall n :: n in out ==> Total(selected) + NodeTokens(n) > q.maxTokens)
    && Total(selected) <= (if mandatory > q.maxTokens then mandatory else q.maxTokens)
  }

  lemma SkippedWithin(ns: seq<Node>, total: int, max: int, n: Node)
    requires n in Skipped(ns, total, max)
    ensures n in ns
  {
  }

  lemma GroupMember(g: Graph, q: Request, ns: seq<Node>, c: Admission, n: Node)
    requires n in Group(g, q, ns, c)
    ensures AdmissionClass(g, q.taskId, n) == c
  {
    SortElems(ByRelevance(q), OfClass(g, q, ns, c));
  }

  // Filling two lists one after the other, behind a list that is always taken.
  ghost predicate FilledTwo(m: seq<Node>, c: seq<Node>, o: seq<Node>, max: int, kept: seq<Node>, out: seq<Node>) {
    && multiset(kept) + multiset(out) == multiset(m) + multiset(c) + multiset(o)
    && (forall n :: n in out ==> Total(kept) + NodeTokens(n) > max)
    && Total(kept) <= (if Total(m) > max then Total(m) else max)
  }

  lemma FillTwo(m: seq<Node>, c: seq<Node>, o: seq<Node>, max: int,
    keptC: seq<Node>, outC: seq<Node>, keptO: seq<Node>, outO: seq<Node>, kept: seq<Node>, out: seq<Node>)
    requires Filled(c, Total(m), max, keptC, outC)
    requires Filled(o, Total(m) + Total(keptC), max, keptO, outO)
    requires kept == m + keptC + keptO && out == outC + outO
    ensures FilledTwo(m, c, o, max, kept, out)
  {
    TotalAppend(m, keptC);
    TotalAppend(m + keptC, keptO);
  }

  lemma {:induction false} AllSkippedWithin(ns: seq<Node>, total: int, max: int)
    ensures forall n :: n in Skipped(ns, total, max) ==> n in ns
  {
    forall n | n in Skipped(ns, total, max) ensures n in ns { SkippedWithin(ns, total, max, n); }
  }

  lemma GroupsFilled(m: seq<Node>, c: seq<Node>, o: seq<Node>, max: int)
    ensures FilledTwo(m, c, o, max, Selected(m, c, o, max), OutOf(m, c, o, max).0 + OutOf(m, c, o, max).1)
    ensures forall n :: n in OutOf(m, c, o, max).0 ==> n in c
    ensures forall n :: n in OutOf(m, c, o, max).1 ==> n in o
  {
    var kept := Fitting(c, Total(m), max);
    var more := Total(m) + Total(kept);
    FillFacts(c, Total(m), max);
    FillFacts(o, more, max);
    FillTwo(m, c, o, max, kept, Skipped(c, Total(m), max), Fitting(o, more, max), Skipped(o, more, max),
      Selected(m, c, o, max), OutOf(m, c, o, max).0 + OutOf(m, c, o, max).1);
    AllSkippedWithin(c, Total(m), max);
    AllSkippedWithin(o, more, max);
  }

  lemma SelectionAdmitted(g: Graph, q: Request, ns: seq<Node>)
    ensures Admitted(g, q, ns, Selection(g, q, ns), LeftOut(g, q, ns))
  {
    var m, c, o := Group(g, q, ns, Mandatory), Group(g, q, ns, Conditional), Group(g, q, ns, Optional);
    ClassesPartition(g, q, ns);
    GroupsFilled(m, c, o, q.maxTokens);
    forall n | n in LeftOut(g, q, ns) ensures AdmissionClass(g, q.taskId, n) != Mandatory {
      if n in c { GroupMember(g, q, ns, Conditional, n); } else { GroupMember(g, q, ns, Optional, n); }
    }
  }

  // ---- resolveContext ----

  function Lookup(g: Graph, ids: seq<Id>): (r: seq<Node>)
    requires forall x :: x in ids ==> x in g.nodes
    ensures |r| == |ids| && forall i :: 0 <= i < |ids| ==> r[i] == g.nodes[ids[i]]
  {
    seq(|ids|, i requires 0 <= i < |ids| => g.nodes[ids[i]])
  }

  function EdgesWithin(g: Graph, ns: seq<Node>, ids: set<Id>): (r: seq<Edge>)
    ensures forall e :: e in r <==> e.to in ids && exists n :: n in ns && e in g.EdgesFrom(n.id)
  {
    if ns == [] then [] else Inside(g.EdgesFrom(ns[0].id), ids) + EdgesWithin(g, ns[1..], ids)
  }

  function Inside(es: seq<Edge>, ids: set<Id>): (r: seq<Edge>)
    ensures forall e :: e in r <==> e in es && e.to in ids
  {
    if es == [] then [] else if es[0].to in ids then [es[0]] + Inside(es[1..], ids) else Inside(es[1..], ids)
  }

  // The required nodes that exist.
  function Present(g: Graph, q: Request): seq<Id> {
    Existing(Required(g, q), g.nodes.Keys)
  }

  function MissingGaps(g: Graph, q: Request): seq<Gap> {
    Collected(Absence(g, q.taskId), Required(g, q)) + Collected(Dangling(g), Present(g, q))
  }

  function ContradictionGaps(g: Graph, q: Request): seq<Gap> {
    Collected(Contradictions(g, Elems(Present(g, q))), Present(g, q))
  }

  lemma {:induction false} AbsentAre(g: Graph, taskId: Id, ids: seq<Id>, gap: Gap)
    ensures gap in Collected(Absence(g, taskId), ids) <==> exists x :: x in ids && Unmet(g, taskId, x, gap)
  {
    CollectedAre(Absence(g, taskId), ids, gap);
    forall x ensures gap in Absence(g, taskId)(x) <==> Unmet(g, taskId, x, gap) {
      AbsenceAre(g, taskId, x, gap);
    }
  }

  lemma {:induction false} LooseAre(g: Graph, ids: seq<Id>, gap: Gap)
    ensures gap in Collected(Dangling(g), ids) <==> exists x :: x in ids && Dangles(g, x, gap)
  {
    CollectedAre(Dangling(g), ids, gap);
    forall x ensures gap in Dangling(g)(x) <==> Dangles(g, x, gap) {
      DanglingAre(g, x, g.EdgesFrom(x), gap);
    }
  }

  // The missing entries are exactly the required ids that name no node and the dependency edges of the others that
  // lead to none.
  lemma {:induction false} MissingAre(g: Graph, q: Request, gap: Gap)
    ensures gap in MissingGaps(g, q) <==>
      || (exists x :: x in Required(g, q) && Unmet(g, q.taskId, x, gap))
      || (exists x :: x in Present(g, q) && Dangles(g, x, gap))
  {
    AbsentAre(g, q.taskId, Required(g, q), gap);
    LooseAre(g, Present(g, q), gap);
  }

  // And the contradictions are exactly those among the required nodes that exist.
  lemma {:induction false} ContradictionsAre(g: Graph, q: Request, gap: Gap)
    ensures gap in ContradictionGaps(g, q) <==>
      exists x :: x in Present(g, q) && Clashes(g, Elems(Present(g, q)), x, gap)
  {
    var required := Elems(Present(g, q));
    CollectedAre(Contradictions(g, required), Present(g, q), gap);
    forall x ensures gap in Contradictions(g, required)(x) <==> Clashes(g, required, x, gap) {
      ClashesAre(g, required, x, gap);
    }
  }

  // What the reported flags mean, given what is missing, what contradicts what, and how many nodes are required.
  ghost predicate JudgedBy(r: Resolution, gaps: seq<Gap>, clashes: seq<Gap>, required: nat) {
    && r.missing == gaps + clashes && r.contradictions == |clashes| && r.required == required
    && (r.complete <==> r.missing == [])
    && (r.sufficient <==> r.complete && !r.budgetOverflow)
    && (r.status.Conflicted? <==> r.contradictions > 0)
    && (r.status.Complete? <==> r.sufficient && r.omitted == [])
    && (r.status.Partial? <==> r.sufficient && r.omitted != [])
  }

  ghost predicate Judged(g: Graph, q: Request, r: Resolution) {
    JudgedBy(r, MissingGaps(g, q), ContradictionGaps(g, q), |Present(g, q)|)
  }

  // The selected nodes, the omissions and the estimate.
  ghost predicate ResolvedAs(g: Graph, q: Request, r: Resolution) {
    var ns := Lookup(g, Present(g, q));
    && r.nodes == Selection(g, q, ns)
    && r.omitted == Omissions(g, q, ns)
    && r.tokenEstimate == Total(r.nodes)
    && (r.budgetOverflow <==> Total(Group(g, q, ns, Mandatory)) > q.maxTokens)
    && r.edges == EdgesWithin(g, r.nodes, Elems(NodeIds(r.nodes)))
  }

  // ---- what a resolution holds, node by node ----

  // The nodes a task cannot do without: itself, tasks and requirements, outputs marked mandatory, and the other end of
  // any edge into it unless that is evidence, a decision, a constraint or an observation.
  predicate Indispensable(g: Graph, taskId: Id, n: Node) {
    || n.id == taskId || n.ntype == Task || n.ntype == Requirement || (n.ntype == Output && n.mandatory)
    || (&& n.ntype != Evidence && n.ntype != Decision && n.ntype != Constraint && n.ntype != Observation
        && exists e :: e in g.EdgesTo(taskId) && (e.from == n.id || e.to == n.id))
  }

  predicate Grounds(n: Node) {
    n.ntype == Evidence || n.ntype == Decision || n.ntype == Constraint
  }

  lemma {:induction false} ClassMeans(g: Graph, taskId: Id, n: Node)
    ensures AdmissionClass(g, taskId, n) == Mandatory <==> Indispensable(g, taskId, n)
    ensures AdmissionClass(g, taskId, n) == Conditional <==> !Indispensable(g, taskId, n) && Grounds(n)
  {
  }

  function IndispensableOf(g: Graph, taskId: Id, ns: seq<Node>): seq<Node> {
    if ns == [] then []
    else (if Indispensable(g, taskId, ns[0]) then [ns[0]] else []) + IndispensableOf(g, taskId, ns[1..])
  }

  lemma {:induction false} MandatoryGroup(g: Graph, q: Request, ns: seq<Node>)
    ensures OfClass(g, q, ns, Mandatory) == IndispensableOf(g, q.taskId, ns)
  {
    if ns != [] {
      ClassMeans(g, q.taskId, ns[0]);
      MandatoryGroup(g, q, ns[1..]);
    }
  }

  lemma {:induction false} TotalInsert(le: (Node, Node) -> bool, n: Node, ns: seq<Node>)
    ensures Total(Insert(le, n, ns)) == NodeTokens(n) + Total(ns)
  {
    if ns != [] && !le(n, ns[0]) {
      TotalInsert(le, n, ns[1..]);
    }
  }

  lemma {:induction false} TotalSort(le: (Node, Node) -> bool, ns: seq<Node>)
    ensures Total(Sort(le, ns)) == Total(ns)
  {
    if ns != [] {
      TotalSort(le, ns[1..]);
      TotalInsert(le, ns[0], Sort(le, ns[1..]));
    }
  }

  // A quarter of the content, rounded up, and twenty.
  lemma NodeCost(n: Node)
    ensures 4 * (NodeTokens(n) - 20) - 4 < |n.content| <= 4 * (NodeTokens(n) - 20)
  {
  }

  ghost predicate OmittedBy(r: Resolution, n: Node, c: Admission) {
    Omitted(n.id, c) in r.omitted
  }

  // Every required node that exists is selected if the task cannot do without it, whatever the budget. What is omitted
  // is omitted as conditional if it is evidence, a decision or a constraint, and as optional otherwise. The budget
  // overflows exactly when the indispensable nodes alone exceed it.
  ghost predicate Keeps(g: Graph, q: Request, r: Resolution, ns: seq<Node>) {
    && (forall n :: n in ns && Indispensable(g, q.taskId, n) ==> n in r.nodes)
    && (forall n :: n in r.nodes ==> n in ns)
    && (forall n :: n in ns ==>
        && (OmittedBy(r, n, Conditional) <==> n !in r.nodes && Grounds(n))
        && (OmittedBy(r, n, Optional) <==> n !in r.nodes && !Grounds(n))
        && !OmittedBy(r, n, Mandatory))
    && (forall o :: o in r.omitted ==> exists n :: n in ns && n.id == o.id)
    && (r.budgetOverflow <==> Total(IndispensableOf(g, q.taskId, ns)) > q.maxTokens)
  }

  lemma {:induction false} OmittedMember(ns: seq<Node>, c: Admission, o: Omitted)
    ensures o in OmittedAs(ns, c) <==> o.admission == c && exists n :: n in ns && n.id == o.id
  {
    if o.admission == c {
      if n :| n in ns && n.id == o.id {
        var i :| 0 <= i < |ns| && ns[i] == n;
        assert OmittedAs(ns, c)[i] == o;
      }
    }
  }

  // The three parts of the required nodes: selected, omitted as conditional, omitted as optional.
  lemma {:induction false} ThreeParts(g: Graph, q: Request, ns: seq<Node>, n: Node)
    requires NoDup(ns)
    ensures var (outC, outO) :=
        OutOf(Group(g, q, ns, Mandatory), Group(g, q, ns, Conditional), Group(g, q, ns, Optional), q.maxTokens);
      && (n in outC ==> AdmissionClass(g, q.taskId, n) == Conditional)
      && (n in outO ==> AdmissionClass(g, q.taskId, n) == Optional)
      && (n in outC || n in outO <==> n in ns && n !in Selection(g, q, ns))
      && (n in Selection(g, q, ns) ==> n in ns)
  {
    var m, c, o := Group(g, q, ns, Mandatory), Group(g, q, ns, Conditional), Group(g, q, ns, Optional);
    var (outC, outO) := OutOf(m, c, o, q.maxTokens);
    SelectionAdmitted(g, q, ns);
    GroupsFilled(m, c, o, q.maxTokens);
    if n in outC { GroupMember(g, q, ns, Conditional, n); }
    if n in outO { GroupMember(g, q, ns, Optional, n); }
    SplitMember(Selection(g, q, ns), outC + outO, ns, n);
  }

  lemma {:induction false} SplitMember(a: seq<Node>, b: seq<Node>, ns: seq<Node>, n: Node)
    requires multiset(a) + multiset(b) == multiset(ns) && NoDup(ns)
    ensures n in b <==> n in ns && n !in a
    ensures n in a ==> n in ns
  {
    NoDupMultiset(ns);
    assert (multiset(a) + multiset(b))[n] == multiset(ns)[n];
    assert n in a <==> n in multiset(a);
    assert n in b <==> n in multiset(b);
    assert n in ns <==> n in multiset(ns);
  }

  lemma {:induction false} OmittedSplit(outC: seq<Node>, outO: seq<Node>, ns: seq<Node>, n: Node)
    requires (forall x :: x in outC || x in outO ==> x in ns) && DistinctNodes(ns) && n in ns
    ensures var omitted := OmittedAs(outC, Conditional) + OmittedAs(outO, Optional);
      && (Omitted(n.id, Conditional) in omitted <==> n in outC)
      && (Omitted(n.id, Optional) in omitted <==> n in outO)
      && Omitted(n.id, Mandatory) !in omitted
  {
    OmittedMember(outC, Conditional, Omitted(n.id, Conditional));
    OmittedMember(outO, Optional, Omitted(n.id, Conditional));
    OmittedMember(outC, Conditional, Omitted(n.id, Optional));
    OmittedMember(outO, Optional, Omitted(n.id, Optional));
    OmittedMember(outC, Conditional, Omitted(n.id, Mandatory));
    OmittedMember(outO, Optional, Omitted(n.id, Mandatory));
  }

  lemma {:induction false} PartsWithin(g: Graph, q: Request, ns: seq<Node>)
    requires NoDup(ns)
    ensures var (outC, outO) :=
        OutOf(Group(g, q, ns, Mandatory), Group(g, q, ns, Conditional), Group(g, q, ns, Optional), q.maxTokens);
      && (forall x :: x in outC || x in outO ==> x in ns)
      && Omissions(g, q, ns) == OmittedAs(outC, Conditional) + OmittedAs(outO, Optional)
  {
    var (outC, outO) :=
        OutOf(Group(g, q, ns, Mandatory), Group(g, q, ns, Conditional), Group(g, q, ns, Optional), q.maxTokens);
    forall x | x in outC || x in outO ensures x in ns { ThreeParts(g, q, ns, x); }
  }

  lemma {:induction false} NodeKept(g: Graph, q: Request, r: Resolution, ns: seq<Node>, n: Node)
    requires NoDup(ns) && DistinctNodes(ns) && n in ns
    requires r.nodes == Selection(g, q, ns) && r.omitted == Omissions(g, q, ns)
    ensures Indispensable(g, q.taskId, n) ==> n in r.nodes
    ensures OmittedBy(r, n, Conditional) <==> n !in r.nodes && Grounds(n)
    ensures OmittedBy(r, n, Optional) <==> n !in r.nodes && !Grounds(n)
    ensures !OmittedBy(r, n, Mandatory)
  {
    var (outC, outO) :=
        OutOf(Group(g, q, ns, Mandatory), Group(g, q, ns, Conditional), Group(g, q, ns, Optional), q.maxTokens);
    PartsWithin(g, q, ns);
    OmittedSplit(outC, outO, ns, n);
    ThreeParts(g, q, ns, n);
    ClassMeans(g, q.taskId, n);
  }

  lemma {:induction false} ResolutionKeeps(g: Graph, q: Request, r: Resolution)
    requires g.NodesKeyed() && ResolvedAs(g, q, r)
    ensures Keeps(g, q, r, Lookup(g, Present(g, q)))
  {
    var ns := Lookup(g, Present(g, q));
    PresentDistinct(g, q);
    forall n | n in ns
      ensures Indispensable(g, q.taskId, n) ==> n in r.nodes
      ensures OmittedBy(r, n, Conditional) <==> n !in r.nodes && Grounds(n)
      ensures OmittedBy(r, n, Optional) <==> n !in r.nodes && !Grounds(n)
      ensures !OmittedBy(r, n, Mandatory)
    {
      NodeKept(g, q, r, ns, n);
    }
    forall n | n in r.nodes ensures n in ns { ThreeParts(g, q, ns, n); }
    forall o | o in r.omitted ensures exists n :: n in ns && n.id == o.id { OmittedRequired(g, q, ns, o); }
    MandatoryGroup(g, q, ns);
    TotalSort(ByRelevance(q), OfClass(g, q, ns, Mandatory));
  }

  lemma {:induction false} OmittedRequired(g: Graph, q: Request, ns: seq<Node>, o: Omitted)
    requires NoDup(ns) && o in Omissions(g, q, ns)
    ensures exists n :: n in ns && n.id == o.id
  {
    var (outC, outO) :=
        OutOf(Group(g, q, ns, Mandatory), Group(g, q, ns, Conditional), Group(g, q, ns, Optional), q.maxTokens);
    OmittedMember(outC, Conditional, o);
    OmittedMember(outO, Optional, o);
    var n :| (n in outC || n in outO) && n.id == o.id;
    ThreeParts(g, q, ns, n);
  }

  lemma {:induction false} ExistingNoDup(ids: seq<Id>, nodes: set<Id>)
    requires NoDup(ids)
    ensures NoDup(Existing(ids, nodes))
  {
    if ids != [] {
      ExistingNoDup(ids[1..], nodes);
      assert ids[0] !in ids[1..];
    }
  }

  lemma {:induction false} SameOrderDistinct(ns: seq<Node>, ids: seq<Id>)
    requires NoDup(ids) && |ns| == |ids| && forall i :: 0 <= i < |ns| ==> ns[i].id == ids[i]
    ensures NoDup(ns) && DistinctNodes(ns)
  {
  }

  lemma {:induction false} PresentDistinct(g: Graph, q: Request)
    requires g.NodesKeyed()
    ensures NoDup(Lookup(g, Present(g, q))) && DistinctNodes(Lookup(g, Present(g, q)))
  {
    ExistingNoDup(Required(g, q), g.nodes.Keys);
    var ids := Present(g, q);
    var ns := Lookup(g, ids);
    forall i | 0 <= i < |ns| ensures ns[i].id == ids[i] {
      assert ids[i] in ids;
    }
    SameOrderDistinct(ns, ids);
  }

  // Phase 6a: all of a list, whatever it costs.
  method AdmitAll(ns: seq<Node>) returns (selected: seq<Node>, total: int)
    ensures selected == ns && total == Total(ns)
  {
    selected, total := [], 0;
    for i := 0 to |ns|
      invariant selected == ns[..i] && total == Total(ns[..i])
    {
      assert ns[..i + 1] == ns[..i] + [ns[i]];
      TotalAppend(ns[..i], [ns[i]]);
      selected := selected + [ns[i]];
      total := total + NodeTokens(ns[i]);
    }
    assert ns[..|ns|] == ns;
  }

  // Phases 6a to 6c over the three groups.
  method SelectGroups(m: seq<Node>, c: seq<Node>, o: seq<Node>, max: int)
    returns (selected: seq<Node>, omitted: seq<Omitted>, total: int)
    ensures selected == Selected(m, c, o, max) && omitted == OmittedOf(m, c, o, max)
    ensures total == Total(selected)
  {
    var none: seq<Omitted> := [];
    selected, total := AdmitAll(m);
    ghost var kept := Fitting(c, Total(m), max);
    ghost var keptO := Fitting(o, Total(m) + Total(kept), max);
    total, selected, omitted := Admit(c, Conditional, max, total, selected, none);
    assert omitted == OmittedAs(Skipped(c, Total(m), max), Conditional);
    total, selected, omitted := Admit(o, Optional, max, total, selected, omitted);
    assert selected == m + kept + keptO;
    assert total == Total(m + kept + keptO) by {
      TotalAppend(m, kept);
      TotalAppend(m + kept, keptO);
    }
  }

  lemma OmissionSizes(g: Graph, q: Request, ns: seq<Node>)
    ensures |Selection(g, q, ns)| + |Omissions(g, q, ns)| == |ns|
  {
    SelectionAdmitted(g, q, ns);
    var a, b := Selection(g, q, ns), LeftOut(g, q, ns);
    assert |multiset(a)| == |a| && |multiset(b)| == |b| && |multiset(ns)| == |ns|;
  }

  function UnknownTask(task: Id): Resolution {
    Resolution([], [], [], 0, [NoTask(task)], 1, 0, false, false, false, Insufficient)
  }

  lemma KeepsIfKeyed(g: Graph, q: Request, r: Resolution)
    requires ResolvedAs(g, q, r)
    ensures g.NodesKeyed() ==> Keeps(g, q, r, Lookup(g, Present(g, q)))
  {
    if g.NodesKeyed() { ResolutionKeeps(g, q, r); }
  }

  method ResolveContext(g: Graph, q: Request) returns (r: Resolution)
    ensures q.taskId !in g.nodes ==>
      && r.nodes == [] && r.edges == [] && r.omitted == [] && r.missing == [NoTask(q.taskId)] && r.required == 1
      && r.tokenEstimate == 0 && r.contradictions == 0 && r.status == Insufficient
      && !r.complete && !r.sufficient && !r.budgetOverflow
    ensures q.taskId in g.nodes ==> ResolvedAs(g, q, r) && Judged(g, q, r)
    ensures q.taskId in g.nodes && g.NodesKeyed() ==> Keeps(g, q, r, Lookup(g, Present(g, q)))
  {
    if q.taskId !in g.nodes {
      return UnknownTask(q.taskId);
    }
    r := ResolveKnown(g, q);
    KeepsIfKeyed(g, q, r);
  }

  // Phases 4 to 9.
  method ResolveKnown(g: Graph, q: Request) returns (r: Resolution)
    ensures ResolvedAs(g, q, r) && Judged(g, q, r)
  {
    var present := Present(g, q);
    var ns := Lookup(g, present);
    var mandatory := Group(g, q, ns, Mandatory);
    var selected, omitted, total :=
      SelectGroups(mandatory, Group(g, q, ns, Conditional), Group(g, q, ns, Optional), q.maxTokens);
    OmissionSizes(g, q, ns);
    var edges := EdgesWithin(g, selected, Elems(NodeIds(selected)));
    r := Judge(MissingGaps(g, q), ContradictionGaps(g, q), selected, edges, omitted, total,
      Total(mandatory) > q.maxTokens, |present|);
  }

  // Phases 8 and 9.
  method Judge(gaps: seq<Gap>, contradictions: seq<Gap>, selected: seq<Node>, edges: seq<Edge>,
    omitted: seq<Omitted>, total: int, budgetOverflow: bool, required: nat) returns (r: Resolution)
    requires |selected| + |omitted| == required
    ensures r.nodes == selected && r.edges == edges && r.omitted == omitted && r.tokenEstimate == total
    ensures r.budgetOverflow == budgetOverflow && JudgedBy(r, gaps, contradictions, required)
  {
    var missing := gaps + contradictions;
    var complete := |missing| == 0;
    var sufficient := complete && !budgetOverflow && |contradictions| == 0;
    var status :=
      if |contradictions| > 0 then Conflicted
      else if !complete || budgetOverflow then Insufficient
      else if |selected| < required then Partial
      else Complete;
    r := Resolution(selected, edges, omitted, total, missing, required, |contradictions|,
      complete, sufficient, budgetOverflow, status);
  }

  lemma RequiredPresent(g: Graph, q: Request)
    requires g.WellIndexed() && q.taskId in g.nodes
    ensures forall x :: x in Required(g, q) ==> x in g.nodes
    ensures forall x, e :: e in g.EdgesFrom(x) ==> e.to in g.nodes
  {
    EdgeEndsExist(g);
    forall x | x in Required(g, q) ensures x in g.nodes {
      RequiredExist(g, q, x);
    }
  }

  lemma NothingMissing(g: Graph, q: Request)
    requires g.WellIndexed() && q.taskId in g.nodes
    ensures Present(g, q) == Required(g, q) && MissingGaps(g, q) == []
  {
    RequiredPresent(g, q);
    ExistingAll(Required(g, q), g.nodes.Keys);
    NoneCollected(Absence(g, q.taskId), Required(g, q));
    forall x ensures Dangling(g)(x) == [] {
      NoneDangling(g, x, g.EdgesFrom(x));
    }
    NoneCollected(Dangling(g), Present(g, q));
  }

  // On a well-indexed graph completeness is freedom from contradiction, and the only way to be
  // insufficient is that the mandatory nodes overflow the budget.
  lemma OnlyOverflowIsInsufficient(g: Graph, q: Request, r: Resolution)
    requires g.WellIndexed() && q.taskId in g.nodes && Judged(g, q, r)
    ensures r.complete <==> r.contradictions == 0
    ensures r.status.Insufficient? <==> r.contradictions == 0 && r.budgetOverflow
  {
    NothingMissing(g, q);
    OverflowAlone(r, ContradictionGaps(g, q), |Present(g, q)|);
  }

  lemma OverflowAlone(r: Resolution, clashes: seq<Gap>, required: nat)
    requires JudgedBy(r, [], clashes, required)
    ensures r.complete <==> r.contradictions == 0
    ensures r.status.Insufficient? <==> r.contradictions == 0 && r.budgetOverflow
  {
    assert [] + clashes == clashes;
  }

  lemma OldestFewFrom(ns: seq<Node>, x: Id)
    requires x in OldestFew(ns)
    ensures exists n :: n in ns && n.id == x
  {
    SortElems(OlderFirst, ns);
    var sorted := Sort(OlderFirst, ns);
    assert forall n :: n in OldestFewNodes(ns) ==> n in sorted;
  }

  lemma CategoryExist(g: Graph, q: Request, x: Id)
    requires g.NodesKeyed() && x in CategoryIds(g, q)
    ensures x in g.nodes
  {
    var t :| x in OldestFew(Attached(g, q, t));
    OldestFewFrom(Attached(g, q, t), x);
    AttachedExist(g, q, t, x);
  }

  lemma AttachedExist(g: Graph, q: Request, t: NodeType, x: Id)
    requires g.NodesKeyed() && exists n :: n in Attached(g, q, t) && n.id == x
    ensures x in g.nodes
  {
    var n :| n in Attached(g, q, t) && n.id == x;
    var y :| y in g.nodes && g.nodes[y] == n;
  }

  lemma RequiredExist(g: Graph, q: Request, x: Id)
    requires g.NodesKeyed() && q.taskId in g.nodes && x in Required(g, q)
    requires forall y, e :: e in g.EdgesFrom(y) ==> e.to in g.nodes
    ensures x in g.nodes
  {
    if x in DepthWalk.WalkFrom(g.UpstreamAdjacency(), q.taskId, UPSTREAM_DEPTH) {
      WalkExist(g, q.taskId, x);
    } else if x in CategoryIds(g, q) {
      CategoryExist(g, q, x);
    }
  }

  lemma WalkExist(g: Graph, id: Id, x: Id)
    requires x in DepthWalk.WalkFrom(g.UpstreamAdjacency(), id, UPSTREAM_DEPTH)
    ensures x in g.nodes
  {
    DepthWalk.WalkSound(g.UpstreamAdjacency(), id, UPSTREAM_DEPTH);
  }

  lemma EdgeEndsExist(g: Graph)
    requires g.WellIndexed()
    ensures forall x, e :: e in g.EdgesFrom(x) || e in g.EdgesTo(x) ==> e.from in g.nodes && e.to in g.nodes
  {
  }

  lemma {:induction false} NoneDangling(g: Graph, id: Id, es: seq<Edge>)
    requires forall e :: e in es ==> e.to in g.nodes
    ensures DanglingEdges(g, id, es) == []
  {
    if es != [] { NoneDangling(g, id, es[1..]); }
  }
}
