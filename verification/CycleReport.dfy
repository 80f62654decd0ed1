// The node that a reported dependency cycle is named by: it leads into a cycle and need not lie on one.
module CycleReport {
  import opened Common
  import opened Reachability
  import opened GraphModel
  import opened GraphRuns
  import opened CycleSearch

  // The report for a node order names a node that lies on a cycle itself, if it names any.
  ghost predicate NamesOnCycle(a: Adjacency, order: seq<Id>) {
    forall i: nat | i < |order| && FirstIntoCycle(a, order, i) :: OnCycle(a, order[i])
  }

  lemma {:induction false} Listing(s: set<Id>) returns (order: seq<Id>)
    ensures NoDup(order) && Elems(order) == s
  {
    if s == {} {
      order := [];
    } else {
      var x :| x in s;
      var rest := Listing(s - {x});
      order := [x] + rest;
      assert x !in Elems(rest);
      assert Elems(order) == {x} + Elems(rest);
    }
  }

  // An order of the same nodes that begins with x.
  lemma {:induction false} OrderFrom(order: seq<Id>, x: Id) returns (other: seq<Id>)
    requires NoDup(order) && x in order
    ensures multiset(other) == multiset(order) && other != [] && other[0] == x
  {
    var rest := Listing(Elems(order) - {x});
    other := [x] + rest;
    assert x !in Elems(rest);
    assert Elems(other) == {x} + Elems(rest) == Elems(order);
    NoDupPermutation(other, order);
  }

  // In whatever order the nodes were inserted, the report names a node on a cycle exactly when every node that leads
  // into a cycle lies on one.
  lemma {:induction false} NamesOnCycleExactly(g: Graph)
    requires g.WellIndexed()
    ensures
      (forall order :: multiset(order) == multiset(g.order) ==> NamesOnCycle(g.CycleAdjacency(), order)) <==>
      (forall x :: x in g.nodes && ReachesCycle(g.CycleAdjacency(), x) ==> OnCycle(g.CycleAdjacency(), x))
  {
    var a := g.CycleAdjacency();
    if forall order :: multiset(order) == multiset(g.order) ==> NamesOnCycle(a, order) {
      forall x | x in g.nodes && ReachesCycle(a, x) ensures OnCycle(a, x) {
        var order := OrderFrom(g.order, x);
        assert NamesOnCycle(a, order) && FirstIntoCycle(a, order, 0);
      }
    }
    if forall x :: x in g.nodes && ReachesCycle(a, x) ==> OnCycle(a, x) {
      forall order | multiset(order) == multiset(g.order) ensures NamesOnCycle(a, order) {
        SameMembers(order, g.order);
        forall i: nat | i < |order| && FirstIntoCycle(a, order, i) ensures OnCycle(a, order[i]) {
          assert order[i] in order && order[i] in g.order;
        }
      }
    }
  }

  // ---- a graph whose report names a node that lies on no cycle ----

  function TwoNodes(): seq<GraphOp> {
    [AddNode(Node("a", Task, "", false, false, 0, 0), 0), AddNode(Node("b", Task, "", false, false, 0, 0), 0)]
  }

  // a -> b and b -> b
  function IntoLoop(): seq<GraphOp> {
    TwoNodes() + [AddEdge(EdgeSpec("a", "b", RequiresOutput, None))] + [AddEdge(EdgeSpec("b", "b", RequiresOutput, None))]
  }

  lemma {:induction false} TwoNodesBuilt()
    ensures var g := Run(TwoNodes());
      g.nodes.Keys == {"a", "b"} && g.order == ["a", "b"] && g.from == map[] && g.to == map[]
  {
    var a, b := TwoNodes()[0], TwoNodes()[1];
    assert TwoNodes() == ([] + [a]) + [b];
    RunAppend([], a);
    RunAppend([] + [a], b);
  }

  lemma {:induction false} LoopBuilt()
    ensures var g := Run(IntoLoop());
      && g.nodes.Keys == {"a", "b"} && g.order == ["a", "b"]
      && g.EdgesFrom("a") == [Edge("a", "b", RequiresOutput, 1.0)]
      && g.EdgesFrom("b") == [Edge("b", "b", RequiresOutput, 1.0)]
  {
    var ab, bb := EdgeSpec("a", "b", RequiresOutput, None), EdgeSpec("b", "b", RequiresOutput, None);
    TwoNodesBuilt();
    RunAppend(TwoNodes(), AddEdge(ab));
    RunAppend(TwoNodes() + [AddEdge(ab)], AddEdge(bb));
  }

  lemma {:induction false} LoopSteps(g: Graph)
    requires g.nodes.Keys == {"a", "b"}
    requires g.EdgesFrom("a") == [Edge("a", "b", RequiresOutput, 1.0)]
    requires g.EdgesFrom("b") == [Edge("b", "b", RequiresOutput, 1.0)]
    ensures Succ(g.CycleAdjacency(), "a") == ["b"] && Succ(g.CycleAdjacency(), "b") == ["b"]
  {
    AllOfType(g.EdgesFrom("a"), RequiresOutput);
    AllOfType(g.EdgesFrom("b"), RequiresOutput);
    assert g.CycleEdges("a") == g.EdgesFrom("a") && g.CycleEdges("b") == g.EdgesFrom("b");
  }

  lemma {:induction false} OffTheLoop(a: Adjacency)
    requires Succ(a, "a") == ["b"] && Succ(a, "b") == ["b"]
    ensures ReachesCycle(a, "a") && !OnCycle(a, "a")
  {
    ReachesSelf(a, "b");
    assert OnCycle(a, "b");
    ReachesHead(a, "a", "b", "b");
    if OnCycle(a, "a") {
      var y :| y in Succ(a, "a") && Reaches(a, y, "a");
      ClosedReaches(a, {"b"}, "b", "a");
    }
  }

  lemma {:induction false} NamedNodeOffCycle()
    ensures var g := Run(IntoLoop());
      && |g.order| == 2 && g.order[0] == "a"
      && FirstIntoCycle(g.CycleAdjacency(), g.order, 0) && !OnCycle(g.CycleAdjacency(), "a")
  {
    LoopBuilt();
    LoopSteps(Run(IntoLoop()));
    OffTheLoop(Run(IntoLoop()).CycleAdjacency());
  }
}
