// The sufficiency oracle: the closure of a task under closure edges walked in both directions.
module SufficiencyOracle {
  import opened Common
  import opened Ordering
  import opened Reachability
  import opened GraphModel

  datatype OracleError = EmptyTaskId | UnknownTask

  // REQUIRES and DEPENDS_ON are looked up as properties of an array and are undefined there, so the closure
  // vocabulary is "requires", "depends_on", "DEPENDENCY" and having no type at all.
  predicate ClosureType(t: EdgeType) {
    t.Requires? || t.DependsOn? || t.Dependency? || t.Untyped?
  }

  function OtherEnd(e: Edge, current: Id): Id {
    if e.from == current then e.to else e.from
  }

  predicate Followed(e: Edge, current: Id) {
    ClosureType(e.etype) && OtherEnd(e, current) != ""
  }

  function NextIds(related: seq<Edge>, current: Id): (r: seq<Id>)
    ensures forall y :: y in r <==> exists e :: e in related && Followed(e, current) && OtherEnd(e, current) == y
  {
    if related == [] then []
    else
      var rest := NextIds(related[1..], current);
      var r := if Followed(related[0], current) then [OtherEnd(related[0], current)] + rest else rest;
      assert forall e :: e in related <==> e == related[0] || e in related[1..];
      r
  }

  function Related(g: Graph, id: Id): seq<Edge> {
    g.EdgesFrom(id) + g.EdgesTo(id)
  }

  function ClosureSteps(g: Graph): Adjacency {
    map id | id in g.from.Keys + g.to.Keys :: NextIds(Related(g, id), id)
  }

  // In terms of edges: a step goes to the other end of an edge of one of the three names, or of none, if it has a name.
  lemma {:induction false} ClosureStepsAre(g: Graph, x: Id, y: Id)
    ensures y in Succ(ClosureSteps(g), x) <==>
      && y != ""
      && exists e :: (e in g.EdgesFrom(x) || e in g.EdgesTo(x))
           && (e.etype == Requires || e.etype == DependsOn || e.etype == Dependency || e.etype == Untyped)
           && y == if e.from == x then e.to else e.from
  {
    assert x !in g.from && x !in g.to ==> g.EdgesFrom(x) == [] && g.EdgesTo(x) == [];
    assert forall e :: e in Related(g, x) <==> e in g.EdgesFrom(x) || e in g.EdgesTo(x);
  }

  // The specification: everything reachable from the task by closure edges in either direction.
  ghost function RequiredClosure(g: Graph, task: Id): set<Id> {
    ReachSet(ClosureSteps(g), task)
  }

  // It is the least set holding the task and closed under those steps.
  lemma ClosureLeast(g: Graph, task: Id)
    ensures task in RequiredClosure(g, task) && Closed(ClosureSteps(g), RequiredClosure(g, task))
    ensures forall s: set<Id> :: task in s && Closed(ClosureSteps(g), s) ==> RequiredClosure(g, task) <= s
  {
    ReachSetLeast(ClosureSteps(g), task);
  }

  lemma StepSymmetric(g: Graph, x: Id, y: Id)
    requires g.Mirrored() && x != "" && y in Succ(ClosureSteps(g), x)
    ensures y != "" && x in Succ(ClosureSteps(g), y)
  {
    var e :| (e in g.EdgesFrom(x) || e in g.EdgesTo(x)) && Followed(e, x) && OtherEnd(e, x) == y;
    assert g.HasEdge(e) && e in g.EdgesTo(e.to);
    assert Followed(e, y) && OtherEnd(e, y) == x;
  }

  // Among non-empty ids, every step can be taken back.
  ghost predicate Symmetric(s: Adjacency) {
    forall x, y :: x != "" && y in Succ(s, x) ==> y != "" && x in Succ(s, y)
  }

  lemma StepsSymmetric(g: Graph)
    requires g.Mirrored()
    ensures Symmetric(ClosureSteps(g))
  {
    forall x, y | x != "" && y in Succ(ClosureSteps(g), x) ensures y != "" && x in Succ(ClosureSteps(g), y) {
      StepSymmetric(g, x, y);
    }
  }

  lemma {:induction false} ReachesBack(s: Adjacency, a: Id, b: Id, n: nat)
    requires Symmetric(s) && a != "" && b in Within(s, a, n)
    ensures b != "" && Reaches(s, b, a)
    decreases n
  {
    if n == 0 {
      ReachesSelf(s, a);
    } else {
      var p := PathWithin(s, a, b, n);
      PathBack(s, p);
    }
  }

  lemma {:induction false} PathBack(s: Adjacency, p: seq<Id>)
    requires Symmetric(s) && IsPath(s, p) && p[0] != ""
    ensures p[|p| - 1] != "" && Reaches(s, p[|p| - 1], p[0])
  {
    if |p| == 1 {
      ReachesSelf(s, p[0]);
    } else {
      var first := 0;
      assert p[first + 1] in Succ(s, p[first]);
      assert p[1] in Succ(s, p[0]) && p[1] != "" && p[0] in Succ(s, p[1]);
      var q := p[1..];
      forall i | 0 <= i < |q| - 1 ensures q[i + 1] in Succ(s, q[i]) {
        var j := i + 1;
        assert p[j + 1] in Succ(s, p[j]);
      }
      PathBack(s, q);
      ReachesStep(s, p[|p| - 1], p[1], p[0]);
    }
  }

  // When both indexes hold the same edges, two tasks have the same closure or disjoint ones.
  lemma ClosuresPartition(g: Graph, t: Id, u: Id)
    requires g.Mirrored() && t != "" && u != ""
    ensures RequiredClosure(g, t) == RequiredClosure(g, u) || RequiredClosure(g, t) !! RequiredClosure(g, u)
    ensures u in RequiredClosure(g, t) <==> RequiredClosure(g, t) == RequiredClosure(g, u)
  {
    ClosureLeast(g, t);
    ClosureLeast(g, u);
    StepsSymmetric(g);
    if z :| z in RequiredClosure(g, t) && z in RequiredClosure(g, u) {
      SharedMember(ClosureSteps(g), t, u, z);
      SharedMember(ClosureSteps(g), u, t, z);
    }
  }

  lemma SharedMember(s: Adjacency, t: Id, u: Id, z: Id)
    requires Symmetric(s) && t != "" && u != ""
    requires z in ReachSet(s, t) && z in ReachSet(s, u)
    ensures ReachSet(s, t) <= ReachSet(s, u)
  {
    var n: nat :| z in Within(s, t, n);
    ReachesBack(s, t, z, n);
    ReachesTransitive(s, u, z, t);
    forall x | x in ReachSet(s, t) ensures x in ReachSet(s, u) {
      ReachesTransitive(s, u, t, x);
      InReachSet(s, u, x);
    }
  }

  // On a graph built through the context graph's own operations no edge has a closure type, so the
  // oracle requires the task and nothing else.
  lemma OwnVocabularyClosure(g: Graph, task: Id)
    requires g.WellIndexed()
    ensures RequiredClosure(g, task) == {task}
  {
    forall x, y ensures y !in Succ(ClosureSteps(g), x) {
      forall e | e in g.EdgesFrom(x) || e in g.EdgesTo(x) ensures !ClosureType(e.etype) {
        assert g.HasEdge(e);
      }
    }
    ClosureLeast(g, task);
    assert Closed(ClosureSteps(g), {task});
  }

  // ---- the worklist ----

  // Every closed node that has left the queue has its successors in the closure.
  ghost predicate Worked(s: Adjacency, closure: seq<Id>, queue: seq<Id>) {
    && (forall x :: x in queue ==> x in closure)
    && (forall x, y :: x in closure && x !in queue && y in Succ(s, x) ==> y in closure)
  }

  ghost predicate Sane(s: Adjacency, task: Id, closure: seq<Id>) {
    NoDup(closure) && task in closure && forall x :: x in closure ==> x in ReachSet(s, task)
  }

  method Relax(s: Adjacency, ghost task: Id, current: Id, next: seq<Id>, closure0: seq<Id>, queue0: seq<Id>)
    returns (closure: seq<Id>, queue: seq<Id>)
    requires Sane(s, task, closure0) && current in closure0 && next == Succ(s, current)
    ensures Sane(s, task, closure) && (forall x :: x in closure0 ==> x in closure)
    ensures forall y :: y in next ==> y in closure
    ensures forall x :: x in queue0 ==> x in queue
    ensures forall x :: x in closure && x !in closure0 ==> x in queue
    ensures forall x :: x in queue ==> x in queue0 || x in closure
    ensures closure == closure0 ==> queue == queue0
    ensures closure0 <= closure
  {
    closure, queue := closure0, queue0;
    for i := 0 to |next|
      invariant Sane(s, task, closure) && closure0 <= closure
      invariant forall x :: x in closure0 ==> x in closure
      invariant forall y :: y in next[..i] ==> y in closure
      invariant forall x :: x in queue0 ==> x in queue
      invariant forall x :: x in closure && x !in closure0 ==> x in queue
      invariant forall x :: x in queue ==> x in queue0 || x in closure
      invariant closure == closure0 ==> queue == queue0
    {
      if next[i] !in closure {
        InReachSet(s, task, current);
        ReachesStep(s, task, current, next[i]);
        InReachSet(s, task, next[i]);
        closure := closure + [next[i]];
        queue := queue + [next[i]];
      }
    }
  }

  method Close(s: Adjacency, task: Id) returns (closure: seq<Id>)
    ensures NoDup(closure) && Elems(closure) == ReachSet(s, task)
  {
    ReachSetLeast(s, task);
    closure := [task];
    var queue := [task];
    ghost var all := ReachSet(s, task);
    while queue != []
      invariant Sane(s, task, closure) && Worked(s, closure, queue)
      decreases |all| - |closure|, |queue|
    {
      var current := queue[0];
      var next := Succ(s, current);
      ghost var before, queueBefore := closure, queue;
      closure, queue := Relax(s, task, current, next, closure, queue[1..]);
      assert forall x :: x in queueBefore <==> x == current || x in queueBefore[1..];
      ShrinksOrStays(closure, before, all);
    }
    ClosedIsAll(s, task, closure);
  }

  lemma ShrinksOrStays(closure: seq<Id>, before: seq<Id>, all: set<Id>)
    requires before <= closure && NoDup(closure) && forall x :: x in closure ==> x in all
    ensures |before| <= |closure| <= |all| && (|closure| == |before| ==> closure == before)
  {
    NoDupCard(closure);
    SubsetCard(Elems(closure), all);
  }

  lemma ClosedIsAll(s: Adjacency, task: Id, closure: seq<Id>)
    requires Sane(s, task, closure) && Worked(s, closure, [])
    ensures Elems(closure) == ReachSet(s, task)
  {
    assert Closed(s, Elems(closure));
    ReachSetLeast(s, task);
  }

  method ComputeRequiredClosure(taskId: Id, g: Graph) returns (r: Result<seq<Id>, OracleError>)
    ensures r.Err? <==> taskId == "" || taskId !in g.nodes
    ensures r == Err(EmptyTaskId) <==> taskId == ""
    ensures r == Err(UnknownTask) <==> taskId != "" && taskId !in g.nodes
    ensures r.Ok? ==> NoDup(r.value) && SortedBy(StringLe, r.value) && Elems(r.value) == RequiredClosure(g, taskId)
  {
    if taskId == "" { return Err(EmptyTaskId); }
    if taskId !in g.nodes { return Err(UnknownTask); }
    var closure := Close(ClosureSteps(g), taskId);
    SortIdsFacts(closure);
    return Ok(SortIds(closure));
  }

  // ---- sufficiency ----

  datatype OracleResult = OracleResult(
    required: seq<Id>, selected: seq<Id>, missing: seq<Id>, unused: seq<Id>, sufficient: bool)

  function Dedup(s: seq<Id>): (r: seq<Id>)
    ensures NoDup(r) && Elems(r) == Elems(s)
  {
    if s == [] then []
    else
      var r := Dedup(s[..|s| - 1]);
      var last := s[|s| - 1];
      assert s == s[..|s| - 1] + [last];
      assert Elems(s) == Elems(r) + {last};
      assert last in r <==> last in Elems(r);
      if last in r then r else r + [last]
  }

  function Minus(s: seq<Id>, drop: set<Id>): (r: seq<Id>)
    ensures forall x :: x in r <==> x in s && x !in drop
    ensures NoDup(s) ==> NoDup(r)
    ensures SortedBy(StringLe, s) ==> SortedBy(StringLe, r)
  {
    if s == [] then [] else if s[0] in drop then Minus(s[1..], drop)
    else
      var rest := Minus(s[1..], drop);
      assert NoDup(s) ==> s[0] !in s[1..];
      assert SortedBy(StringLe, s) ==> forall x :: x in s[1..] ==> StringLe(s[0], x);
      [s[0]] + rest
  }

  // Sufficient exactly when the selection covers the closure; missing and unused are the two differences.
  ghost predicate Verdict(g: Graph, taskId: Id, selected: seq<Id>, v: OracleResult) {
    var required := RequiredClosure(g, taskId);
    && Elems(v.required) == required && NoDup(v.required)
    && Elems(v.missing) == required - Elems(selected)
    && Elems(v.unused) == Elems(selected) - required
    && Elems(v.selected) == Elems(selected)
    && NoDup(v.missing) && NoDup(v.unused) && NoDup(v.selected)
    && SortedBy(StringLe, v.required) && SortedBy(StringLe, v.selected)
    && SortedBy(StringLe, v.missing) && SortedBy(StringLe, v.unused)
    && (v.sufficient <==> required <= Elems(selected))
  }

  method VerifySufficiency(taskId: Id, g: Graph, selected: seq<Id>) returns (r: Result<OracleResult, OracleError>)
    ensures r.Err? <==> taskId == "" || taskId !in g.nodes
    ensures r.Ok? ==> Verdict(g, taskId, selected, r.value)
  {
    var closure := ComputeRequiredClosure(taskId, g);
    if closure.Err? {
      return Err(closure.error);
    }
    var required := closure.value;
    var chosen := Dedup(selected);
    SortIdsFacts(chosen);
    var missing := Minus(required, Elems(chosen));
    var loose := Minus(chosen, Elems(required));
    SortIdsFacts(loose);
    var v := OracleResult(required, SortIds(chosen), missing, SortIds(loose), missing == []);
    assert missing == [] <==> Elems(required) <= Elems(selected) by {
      if missing != [] { assert missing[0] in missing; }
    }
    return Ok(v);
  }

  // ---- graphs from plain lists ----

  function EdgesOut(es: seq<Edge>, id: Id): (r: seq<Edge>)
    ensures forall e :: e in r <==> e in es && e.from == id
  {
    if es == [] then [] else if es[0].from == id then [es[0]] + EdgesOut(es[1..], id) else EdgesOut(es[1..], id)
  }

  function EdgesIn(es: seq<Edge>, id: Id): (r: seq<Edge>)
    ensures forall e :: e in r <==> e in es && e.to == id
  {
    if es == [] then [] else if es[0].to == id then [es[0]] + EdgesIn(es[1..], id) else EdgesIn(es[1..], id)
  }

  function KeyedNodes(ns: seq<Node>): map<Id, Node> {
    if ns == [] then map[] else KeyedNodes(ns[..|ns| - 1])[ns[|ns| - 1].id := ns[|ns| - 1]]
  }

  function BuildOracleGraph(ns: seq<Node>, es: seq<Edge>): Graph {
    Graph(KeyedNodes(ns), [],
      map id | id in Elems(Sources(es)) :: EdgesOut(es, id),
      map id | id in Elems(Targets(es)) :: EdgesIn(es, id))
  }

  // A graph built from lists answers both edge queries from the same edges, dangling ones included.
  lemma BuildMirrored(ns: seq<Node>, es: seq<Edge>)
    ensures BuildOracleGraph(ns, es).Mirrored()
    ensures forall e :: BuildOracleGraph(ns, es).HasEdge(e) <==> e in es
  {
    BuildIndexes(ns, es);
  }

  lemma BuildIndexes(ns: seq<Node>, es: seq<Edge>)
    ensures forall x :: BuildOracleGraph(ns, es).EdgesFrom(x) == EdgesOut(es, x)
    ensures forall x :: BuildOracleGraph(ns, es).EdgesTo(x) == EdgesIn(es, x)
  {
    var g := BuildOracleGraph(ns, es);
    forall x ensures g.EdgesFrom(x) == EdgesOut(es, x) { BuildFrom(ns, es, x); }
    forall x ensures g.EdgesTo(x) == EdgesIn(es, x) { BuildTo(ns, es, x); }
  }

  lemma BuildFrom(ns: seq<Node>, es: seq<Edge>, x: Id)
    ensures BuildOracleGraph(ns, es).EdgesFrom(x) == EdgesOut(es, x)
  {
  }

  lemma BuildTo(ns: seq<Node>, es: seq<Edge>, x: Id)
    ensures BuildOracleGraph(ns, es).EdgesTo(x) == EdgesIn(es, x)
  {
  }

}
