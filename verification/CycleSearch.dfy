// White/grey/black depth-first cycle search, with the captured sets threaded through the recursion.
// Nodes in visited but not in inStack are finished.
module CycleSearch {
  import opened Common
  import opened Reachability

  // A finished set is closed under successors and holds no cycle.
  ghost predicate Finished(g: Adjacency, s: set<Id>) {
    Closed(g, s) && forall x :: x in s ==> !OnCycle(g, x)
  }

  // The i-th node of the order reaches a cycle, and no earlier node does.
  ghost predicate FirstIntoCycle(g: Adjacency, order: seq<Id>, i: nat)
    requires i < |order|
  {
    ReachesCycle(g, order[i]) && forall j :: 0 <= j < i ==> !ReachesCycle(g, order[j])
  }

  lemma ProperThenStep(g: Adjacency, a: Id, b: Id, c: Id)
    requires ReachesProperly(g, a, b) && c in Succ(g, b)
    ensures ReachesProperly(g, a, c)
  {
    var y :| y in Succ(g, a) && Reaches(g, y, b);
    ReachesStep(g, y, b, c);
  }

  lemma StackReaches(g: Adjacency, stack: set<Id>, id: Id, next: Id)
    requires next in Succ(g, id)
    requires forall s :: s in stack ==> ReachesProperly(g, s, id)
    ensures forall s :: s in stack + {id} ==> ReachesProperly(g, s, next)
  {
    ReachesSelf(g, next);
    forall s | s in stack ensures ReachesProperly(g, s, next) {
      ProperThenStep(g, s, id, next);
    }
  }

  lemma CycleFurther(g: Adjacency, id: Id, next: Id)
    requires next in Succ(g, id) && ReachesCycle(g, next)
    ensures ReachesCycle(g, id)
  {
    var y :| Reaches(g, next, y) && OnCycle(g, y);
    ReachesHead(g, id, next, y);
  }

  lemma FinishOne(g: Adjacency, done: set<Id>, id: Id)
    requires Finished(g, done) && id !in done
    requires forall y :: y in Succ(g, id) ==> y in done
    ensures Finished(g, done + {id})
  {
    if OnCycle(g, id) {
      var y :| y in Succ(g, id) && Reaches(g, y, id);
      ClosedReaches(g, done, y, id);
    }
  }

  lemma FinishedNoCycle(g: Adjacency, done: set<Id>, x: Id)
    requires Finished(g, done) && x in done
    ensures !ReachesCycle(g, x)
  {
    if ReachesCycle(g, x) {
      var y :| Reaches(g, x, y) && OnCycle(g, y);
      ClosedReaches(g, done, x, y);
    }
  }

  method HasCycle(g: Adjacency, id: Id, visited0: set<Id>, inStack0: set<Id>)
    returns (found: bool, visited: set<Id>, inStack: set<Id>)
    requires Internal(g) && id in g && inStack0 <= visited0 <= g.Keys
    requires Finished(g, visited0 - inStack0)
    requires forall s :: s in inStack0 ==> ReachesProperly(g, s, id)
    ensures found ==> ReachesCycle(g, id)
    ensures !found ==> inStack == inStack0 && visited0 <= visited <= g.Keys
    ensures !found ==> id in visited - inStack0 && Finished(g, visited - inStack0)
    decreases g.Keys - visited0
  {
    visited, inStack := visited0, inStack0;
    if id in inStack {
      ReachesSelf(g, id);
      return true, visited, inStack;
    }
    if id in visited {
      return false, visited, inStack;
    }
    visited := visited + {id};
    inStack := inStack + {id};
    ghost var stack := inStack;
    assert visited - stack == visited0 - inStack0;
    for i := 0 to |g[id]|
      invariant inStack == stack <= visited <= g.Keys && visited0 + {id} <= visited
      invariant Finished(g, visited - stack)
      invariant forall k :: 0 <= k < i ==> g[id][k] in visited - stack
    {
      var next := g[id][i];
      StackReaches(g, stack - {id}, id, next);
      assert stack - {id} + {id} == stack;
      found, visited, inStack := HasCycle(g, next, visited, inStack);
      if found {
        CycleFurther(g, id, next);
        return;
      }
    }
    FinishOne(g, visited - stack, id);
    inStack := inStack - {id};
    assert inStack == inStack0;
    assert visited - inStack == (visited - stack) + {id};
    found := false;
  }

  // Searching from every node in turn finds a cycle exactly when there is one, and stops at the first
  // node from which one can be reached.
  method FindCycle(g: Adjacency, order: seq<Id>) returns (found: bool, at: nat)
    requires Internal(g)
    requires forall x :: x in g <==> x in order
    ensures found <==> Cyclic(g)
    ensures found ==> at < |order| && FirstIntoCycle(g, order, at)
  {
    var visited: set<Id>, inStack: set<Id> := {}, {};
    for i := 0 to |order|
      invariant inStack == {} && visited <= g.Keys
      invariant Finished(g, visited)
      invariant forall j :: 0 <= j < i ==> order[j] in visited
    {
      assert order[i] in order;
      ghost var before := visited;
      assert visited - inStack == before;
      found, visited, inStack := HasCycle(g, order[i], visited, inStack);
      if found {
        forall j | 0 <= j < i ensures !ReachesCycle(g, order[j]) {
          FinishedNoCycle(g, before, order[j]);
        }
        return true, i;
      }
      assert visited - {} == visited;
    }
    return false, 0;
  }
}
