// What the fixed depth of the router costs, on graphs built through the public operations: a chain of tasks with a
// shortcut to its end, which the depth-limited walk leaves before its last node.
module RouterDepth {
  import opened Common
  import opened Reachability
  import opened GraphModel
  import opened GraphRuns
  import opened DepthWalk
  import opened DepthLimit
  import R = ContextRouter

  // ---- the chain as a run ----

  function PlainTask(id: Id): Node {
    Node(id, Task, "", false, false, 0, 0)
  }

  function NodeOps(n: nat): seq<GraphOp> {
    if n == 0 then [] else NodeOps(n - 1) + [AddNode(PlainTask(Name(n - 1)), 0)]
  }

  // The j-th edge: n0 -> n1, n0 -> n(d-1), n1 -> n2, n2 -> n3, ...
  function ChainEdge(d: nat, j: nat): EdgeSpec
    requires d >= 3
  {
    var (i, k) := if j == 0 then (0, 1) else if j == 1 then (0, d - 1) else (j - 1, j);
    EdgeSpec(Name(i), Name(k), RequiresOutput, None)
  }

  function ChainOps(n: nat, d: nat, j: nat): seq<GraphOp>
    requires d >= 3
    decreases j
  {
    if j == 0 then NodeOps(n) else ChainOps(n, d, j - 1) + [AddEdge(ChainEdge(d, j - 1))]
  }

  ghost predicate TaskNodes(g: Graph, n: nat) {
    g.nodes.Keys == Names(n) && forall id :: id in g.nodes ==> g.nodes[id] == PlainTask(id)
  }

  lemma {:induction false} NamesGrow(n: nat)
    ensures Names(n + 1) == Names(n) + {Name(n)} && Name(n) !in Names(n)
  {
    forall i: nat | i < n ensures Name(i) != Name(n) { NameInjective(i, n); }
  }

  ghost predicate NodesOnly(g: Graph, n: nat) {
    TaskNodes(g, n) && g.from == map[] && g.to == map[]
  }

  lemma {:induction false} NodeAdded(g: Graph, n: nat)
    requires NodesOnly(g, n)
    ensures NodesOnly(Apply(g, AddNode(PlainTask(Name(n)), 0)), n + 1)
  {
    NamesGrow(n);
  }

  lemma {:induction false} NoNodes()
    ensures NodesOnly(EmptyGraph(), 0)
  {
  }

  lemma {:induction false} NodesBuilt(n: nat)
    ensures NodesOnly(Run(NodeOps(n)), n)
  {
    if n == 0 {
      NoNodes();
    } else {
      var before, op := NodeOps(n - 1), AddNode(PlainTask(Name(n - 1)), 0);
      NodesBuilt(n - 1);
      NodeAdded(Run(before), n - 1);
      RunAppend(before, op);
    }
  }

  // What the first j edges leave at ni.
  function EdgesAt(d: nat, j: nat, i: nat): seq<Edge>
    requires d >= 3
  {
    if i == 0 then
      (if j >= 1 then [ChainEdge(d, 0).Entry()] else []) + (if j >= 2 then [ChainEdge(d, 1).Entry()] else [])
    else if j >= i + 2 then [ChainEdge(d, i + 1).Entry()] else []
  }

  ghost predicate EdgesSoFar(g: Graph, n: nat, d: nat, j: nat)
    requires d >= 3
  {
    forall i: nat | i < n :: g.EdgesFrom(Name(i)) == EdgesAt(d, j, i)
  }

  ghost predicate OutputsRequired(g: Graph) {
    forall x, e :: e in g.EdgesFrom(x) || e in g.EdgesTo(x) ==> e.etype == RequiresOutput
  }

  ghost predicate Built(g: Graph, n: nat, d: nat, j: nat)
    requires d >= 3
  {
    TaskNodes(g, n) && EdgesSoFar(g, n, d, j) && OutputsRequired(g)
  }

  // The node the j-th edge leaves.
  function SourceOf(j: nat): nat {
    if j < 2 then 0 else j - 1
  }

  lemma {:induction false} EdgeAccepted(g: Graph, n: nat, d: nat, j: nat)
    requires d >= 3 && n >= d + 2 && j < d + 2 && TaskNodes(g, n) && EdgesSoFar(g, n, d, j)
    ensures var e := ChainEdge(d, j);
      g.EdgeError(e).None? && !g.Duplicate(e) && e.from == Name(SourceOf(j))
  {
    var e := ChainEdge(d, j);
    assert SourceOf(j) < n && e.from == Name(SourceOf(j)) && e.from in Names(n) && e.to in Names(n);
    NameInjective(1, d - 1);
    assert g.EdgesFrom(Name(SourceOf(j))) == EdgesAt(d, j, SourceOf(j));
  }

  lemma {:induction false} EdgeAdded(g: Graph, n: nat, d: nat, j: nat)
    requires d >= 3 && n >= d + 2 && j < d + 2 && EdgesSoFar(g, n, d, j)
    requires !g.Duplicate(ChainEdge(d, j)) && ChainEdge(d, j).from == Name(SourceOf(j))
    ensures EdgesSoFar(g.WithEdge(ChainEdge(d, j)), n, d, j + 1)
  {
    var h := g.WithEdge(ChainEdge(d, j));
    forall i: nat | i < n ensures h.EdgesFrom(Name(i)) == EdgesAt(d, j + 1, i) {
      NameInjective(i, SourceOf(j));
      assert g.EdgesFrom(Name(i)) == EdgesAt(d, j, i);
    }
  }

  lemma {:induction false} EdgeBuilt(g: Graph, n: nat, d: nat, j: nat)
    requires d >= 3 && n >= d + 2 && j < d + 2 && Built(g, n, d, j)
    ensures Built(Apply(g, AddEdge(ChainEdge(d, j))), n, d, j + 1)
  {
    EdgeAccepted(g, n, d, j);
    EdgeAdded(g, n, d, j);
    WithEdgeIndexes(g, ChainEdge(d, j));
    assert g.WithEdge(ChainEdge(d, j)).nodes == g.nodes;
  }

  lemma {:induction false} NoEdgesBuilt(g: Graph, n: nat, d: nat)
    requires d >= 3 && NodesOnly(g, n)
    ensures Built(g, n, d, 0)
  {
  }

  lemma {:induction false} StepBuilt(ops: seq<GraphOp>, n: nat, d: nat, j: nat, more: seq<GraphOp>, k: nat)
    requires d >= 3 && n >= d + 2 && j < d + 2 && Built(Run(ops), n, d, j)
    requires more == ops + [AddEdge(ChainEdge(d, j))] && k == j + 1
    ensures Built(Run(more), n, d, k)
  {
    EdgeBuilt(Run(ops), n, d, j);
    RunAppend(ops, AddEdge(ChainEdge(d, j)));
  }

  lemma {:induction false} StartBuilt(n: nat, d: nat, ops: seq<GraphOp>)
    requires d >= 3 && ops == NodeOps(n)
    ensures Built(Run(ops), n, d, 0)
  {
    NodesBuilt(n);
    NoEdgesBuilt(Run(ops), n, d);
  }

  lemma ChainOpsStep(n: nat, d: nat, j: nat)
    requires d >= 3 && j > 0
    ensures ChainOps(n, d, j) == ChainOps(n, d, j - 1) + [AddEdge(ChainEdge(d, j - 1))]
  {
  }

  lemma {:induction false} ChainBuilt(n: nat, d: nat, j: nat)
    requires d >= 3 && n >= d + 2 && j <= d + 2
    ensures Built(Run(ChainOps(n, d, j)), n, d, j)
    decreases j
  {
    if j == 0 {
      StartBuilt(n, d, ChainOps(n, d, j));
    } else {
      ChainBuilt(n, d, j - 1);
      ChainOpsStep(n, d, j);
      StepBuilt(ChainOps(n, d, j - 1), n, d, j - 1, ChainOps(n, d, j), j);
    }
  }

  lemma {:induction false} OutputsOnly(g: Graph, id: Id)
    requires forall e :: e in g.EdgesFrom(id) || e in g.EdgesTo(id) ==> e.etype == RequiresOutput
    requires forall y :: y in Targets(g.EdgesFrom(id)) ==> y in g.nodes
    ensures g.Dependencies(id) == Targets(g.EdgesFrom(id)) && g.Producers(id) == []
  {
    AllOfType(g.EdgesFrom(id), RequiresOutput);
    AllOfType(g.EdgesTo(id), RequiresOutput);
    assert g.DependencyEdges(id) == g.EdgesFrom(id);
    ExistingAll(Targets(g.EdgesFrom(id)), g.nodes.Keys);
  }

  lemma {:induction false} ChainTargets(n: nat, d: nat, i: nat)
    requires d >= 3 && n >= d + 2 && i < n
    ensures Name(i) in ShortcutChain(n, d) && Targets(EdgesAt(d, d + 2, i)) == ShortcutChain(n, d)[Name(i)]
  {
    assert Name(i) in Names(n) && |Name(i)| == i + 1;
  }

  lemma ChainKeys(n: nat, d: nat)
    requires d >= 3
    ensures ShortcutChain(n, d).Keys == Names(n)
  {
  }

  lemma {:induction false} ChainStep(g: Graph, n: nat, d: nat, i: nat)
    requires d >= 3 && n >= d + 2 && i < n && Built(g, n, d, d + 2)
    ensures g.Dependencies(Name(i)) + g.Producers(Name(i)) == ShortcutChain(n, d)[Name(i)]
  {
    ChainTargets(n, d, i);
    ChainInternal(n, d);
    ChainKeys(n, d);
    assert EdgesSoFar(g, n, d, d + 2) && g.EdgesFrom(Name(i)) == EdgesAt(d, d + 2, i);
    OutputsOnly(g, Name(i));
  }

  lemma {:induction false} BuiltKeys(g: Graph, n: nat, d: nat)
    requires d >= 3 && n >= d + 2 && Built(g, n, d, d + 2)
    ensures |g.nodes| == n && Name(0) in g.nodes && g.nodes.Keys == Names(n)
  {
    NamesCount(n);
    assert |g.nodes| == |g.nodes.Keys|;
    assert Name(0) in Names(n);
  }

  lemma {:induction false} NameIndex(n: nat, id: Id) returns (i: nat)
    requires id in Names(n)
    ensures i < n && id == Name(i)
  {
    i :| i < n && id == Name(i);
  }

  lemma UpstreamKeys(g: Graph)
    ensures g.UpstreamAdjacency().Keys == g.nodes.Keys
  {
  }

  lemma UpstreamAt(g: Graph, id: Id)
    requires id in g.nodes
    ensures Succ(g.UpstreamAdjacency(), id) == g.Dependencies(id) + g.Producers(id)
  {
  }

  lemma {:induction false} SuccAgree(g: Graph, n: nat, d: nat, id: Id)
    requires d >= 3 && n >= d + 2 && Built(g, n, d, d + 2) && id in Names(n)
    ensures Succ(g.UpstreamAdjacency(), id) == Succ(ShortcutChain(n, d), id)
  {
    var i := NameIndex(n, id);
    BuiltKeys(g, n, d);
    UpstreamAt(g, id);
    ChainStep(g, n, d, i);
  }

  lemma SameAdjacency(a: Adjacency, b: Adjacency)
    requires a.Keys == b.Keys && forall id :: id in a.Keys ==> Succ(a, id) == Succ(b, id)
    ensures a == b
  {
    assert forall id :: id in a.Keys ==> a[id] == Succ(a, id) && b[id] == Succ(b, id);
  }

  lemma {:induction false} ChainUpstream(g: Graph, n: nat, d: nat)
    requires d >= 3 && n >= d + 2 && Built(g, n, d, d + 2)
    ensures |g.nodes| == n && Name(0) in g.nodes && g.UpstreamAdjacency() == ShortcutChain(n, d)
  {
    BuiltKeys(g, n, d);
    UpstreamKeys(g);
    ChainKeys(n, d);
    forall id | id in Names(n) ensures Succ(g.UpstreamAdjacency(), id) == Succ(ShortcutChain(n, d), id) {
      SuccAgree(g, n, d, id);
    }
    SameAdjacency(g.UpstreamAdjacency(), ShortcutChain(n, d));
  }

  // The run that adds n tasks and then the edges of the chain builds the graph that the walk fails on.
  function ChainRun(n: nat, d: nat): seq<GraphOp>
    requires d >= 3
  {
    ChainOps(n, d, d + 2)
  }

  lemma {:induction false} ChainIsRun(n: nat, d: nat) returns (g: Graph)
    requires d >= 3 && n >= d + 2
    ensures g == Run(ChainRun(n, d)) && Built(g, n, d, d + 2)
    ensures |g.nodes| == n && Name(0) in g.nodes && g.UpstreamAdjacency() == ShortcutChain(n, d)
  {
    var j := d + 2;
    ChainBuilt(n, d, j);
    g := Run(ChainOps(n, d, j));
    ChainUpstream(g, n, d);
  }

  // ---- the walk on graphs built through the operations ----

  ghost predicate RunsLoseNothing(n: nat, d: nat) {
    forall ops, start :: |Run(ops).nodes| == n && start in Run(ops).nodes ==>
      FindsAllWithin(Run(ops).UpstreamAdjacency(), start, d)
  }

  lemma {:induction false} ChainLoses(n: nat, d: nat)
    requires d >= 3 && n >= d + 2
    ensures !FindsAllWithin(ShortcutChain(n, d), Name(0), d)
    ensures Reaches(ShortcutChain(n, d), Name(0), Name(d + 1))
  {
    ChainMisses(n, d);
    assert Name(d + 1) in Within(ShortcutChain(n, d), Name(0), d) - {Name(0)};
  }

  // The threshold of DepthLimit is met by graphs that the operations build.
  lemma {:induction false} RunThreshold(n: nat, d: nat)
    ensures RunsLoseNothing(n, d) <==> d <= 2 || n <= d + 1
  {
    if d <= 2 || n <= d + 1 {
      DepthThreshold(n, d);
      forall ops, start | |Run(ops).nodes| == n && start in Run(ops).nodes
        ensures FindsAllWithin(Run(ops).UpstreamAdjacency(), start, d)
      {
        UpstreamSize(Run(ops), Run(ops).UpstreamAdjacency());
      }
    } else {
      var g := ChainIsRun(n, d);
      ChainLoses(n, d);
      assert !FindsAllWithin(Run(ChainRun(n, d)).UpstreamAdjacency(), Name(0), d);
    }
  }

  // ---- the router ----

  // Tasks only, none mandatory, and only requires_output edges.
  ghost predicate Plain(g: Graph) {
    && (forall x :: x in g.nodes ==> g.nodes[x].ntype == Task && !g.nodes[x].mandatory)
    && (forall x, e :: e in g.EdgesFrom(x) ==> e.etype == RequiresOutput)
  }

  lemma {:induction false} NothingProduced(g: Graph, ids: seq<Id>)
    requires Plain(g)
    ensures R.ProducedBy(g, ids) == []
  {
    if ids != [] {
      AllOfType(g.EdgesFrom(ids[0]), RequiresOutput);
      NothingProduced(g, ids[1..]);
    }
  }

  lemma {:induction false} NothingRelevant(g: Graph, q: R.Request, t: NodeType, ids: seq<Id>)
    requires Plain(g) && t != Task
    ensures R.Relevant(g, q, t, ids) == []
  {
    if ids != [] {
      NothingRelevant(g, q, t, ids[1..]);
    }
  }

  lemma {:induction false} NothingAttached(g: Graph, q: R.Request, t: NodeType)
    requires Plain(g) && t != Task
    ensures R.OldestFew(R.Attached(g, q, t)) == []
  {
    NothingRelevant(g, q, t, Sources(g.EdgesTo(q.taskId)));
    NothingRelevant(g, q, t, Targets(OfType(g.EdgesFrom(q.taskId), RelatedTo)));
  }

  lemma {:induction false} NoCategories(g: Graph, q: R.Request)
    requires Plain(g)
    ensures R.CategoryIds(g, q) == []
  {
    NothingAttached(g, q, Evidence);
    NothingAttached(g, q, Decision);
    NothingAttached(g, q, Constraint);
    NothingAttached(g, q, Observation);
  }

  lemma {:induction false} NoOutputs(g: Graph, ids: seq<Id>)
    requires Plain(g)
    ensures R.OutputContext(g, ids) == []
  {
    if ids != [] {
      NoOutputs(g, ids[1..]);
    }
  }

  // On such a graph the router requires the task, its direct dependencies and what the walk finds.
  lemma {:induction false} PlainRequired(g: Graph, q: R.Request, x: Id)
    requires Plain(g) && x in R.Required(g, q)
    ensures x == q.taskId || x in g.Dependencies(q.taskId)
      || x in WalkFrom(g.UpstreamAdjacency(), q.taskId, R.UPSTREAM_DEPTH)
  {
    var start := R.Join(R.Join([q.taskId], R.MarkedMandatory(g, g.order)), g.Dependencies(q.taskId));
    var upstream := R.Join(start, WalkFrom(g.UpstreamAdjacency(), q.taskId, R.UPSTREAM_DEPTH));
    NothingProduced(g, upstream);
    var produced := R.Join(upstream, R.ProducedBy(g, upstream));
    NoCategories(g, q);
    NoOutputs(g, R.Join(produced, R.CategoryIds(g, q)));
  }

  lemma {:induction false} LastNotNext(n: nat, d: nat)
    requires d >= 3 && n >= d + 2
    ensures Name(d + 1) != Name(0) && Name(0) in ShortcutChain(n, d) && Name(d + 1) !in ShortcutChain(n, d)[Name(0)]
  {
    ChainTargets(n, d, 0);
    NameInjective(d + 1, 0);
    NameInjective(d + 1, 1);
    NameInjective(d + 1, d - 1);
    assert |Name(0)| == 1;
  }

  lemma {:induction false} LastNotDirect(g: Graph, n: nat, d: nat)
    requires d >= 3 && n >= d + 2 && Built(g, n, d, d + 2)
    ensures Name(d + 1) != Name(0) && Name(d + 1) !in g.Dependencies(Name(0))
  {
    LastNotNext(n, d);
    ChainStep(g, n, d, 0);
    InFirst(g.Dependencies(Name(0)), g.Producers(Name(0)), Name(d + 1));
  }

  lemma InFirst(a: seq<Id>, b: seq<Id>, x: Id)
    ensures x in a ==> x in a + b
  {
  }

  lemma {:induction false} BuiltPlain(g: Graph, n: nat, d: nat)
    requires d >= 3 && Built(g, n, d, d + 2)
    ensures Plain(g)
  {
  }

  lemma {:induction false} ChainNotRequired(g: Graph, n: nat, q: R.Request)
    requires n >= R.UPSTREAM_DEPTH + 2 && q.taskId == Name(0) && Built(g, n, R.UPSTREAM_DEPTH, R.UPSTREAM_DEPTH + 2)
    ensures Name(R.UPSTREAM_DEPTH + 1) !in R.Required(g, q)
  {
    var d := R.UPSTREAM_DEPTH;
    ChainUpstream(g, n, d);
    ChainMisses(n, d);
    LastNotDirect(g, n, d);
    BuiltPlain(g, n, d);
    if Name(d + 1) in R.Required(g, q) {
      PlainRequired(g, q, Name(d + 1));
    }
  }

  // The task has a dependency in the graph that the router leaves out.
  ghost predicate LeavesOut(g: Graph, q: R.Request, x: Id) {
    && q.taskId in g.nodes
    && Reaches(g.UpstreamAdjacency(), q.taskId, x)
    && x !in R.Required(g, q)
  }

  lemma {:induction false} ChainLeavesOut(g: Graph, n: nat, q: R.Request)
    requires n >= R.UPSTREAM_DEPTH + 2 && q.taskId == Name(0) && q.taskId in g.nodes
    requires Built(g, n, R.UPSTREAM_DEPTH, R.UPSTREAM_DEPTH + 2)
    requires g.UpstreamAdjacency() == ShortcutChain(n, R.UPSTREAM_DEPTH)
    ensures LeavesOut(g, q, Name(R.UPSTREAM_DEPTH + 1))
  {
    ChainLoses(n, R.UPSTREAM_DEPTH);
    ChainNotRequired(g, n, q);
  }

  // From every size past the depth by two, some graph holds a dependency of the task that the router leaves out.
  lemma {:induction false} LargeGraphMissed(n: nat, q: R.Request)
    requires n >= R.UPSTREAM_DEPTH + 2 && q.taskId == Name(0)
    ensures |Run(ChainRun(n, R.UPSTREAM_DEPTH)).nodes| == n
    ensures LeavesOut(Run(ChainRun(n, R.UPSTREAM_DEPTH)), q, Name(R.UPSTREAM_DEPTH + 1))
  {
    var g := ChainIsRun(n, R.UPSTREAM_DEPTH);
    ChainLeavesOut(g, n, q);
  }

  // Every request, whatever its task: all that the task depends on is required, in all graphs of n nodes.
  ghost predicate Covers(n: nat, q: R.Request) {
    forall ops, task, x ::
      |Run(ops).nodes| == n && task in Run(ops).nodes && Reaches(Run(ops).UpstreamAdjacency(), task, x) ==>
      x in R.Required(Run(ops), q.(taskId := task))
  }

  // The depth of 5 covers the graphs of at most six nodes, and no larger size.
  lemma {:induction false} RouterThreshold(n: nat, q: R.Request)
    ensures Covers(n, q) <==> n <= R.UPSTREAM_DEPTH + 1
  {
    if n <= R.UPSTREAM_DEPTH + 1 {
      forall ops, task, x | |Run(ops).nodes| == n && task in Run(ops).nodes
        && Reaches(Run(ops).UpstreamAdjacency(), task, x) ensures x in R.Required(Run(ops), q.(taskId := task))
      {
        UpstreamSize(Run(ops), Run(ops).UpstreamAdjacency());
        R.SmallGraphsCovered(Run(ops), q.(taskId := task), x);
      }
    } else {
      LargeGraphMissed(n, q.(taskId := Name(0)));
    }
  }
}
