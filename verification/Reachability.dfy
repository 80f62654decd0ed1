// Finite directed graphs as adjacency maps: reachability within n steps, cycles, closed sets.
module Reachability {
  import opened Common

  type Adjacency = map<Id, seq<Id>>

  function Succ(g: Adjacency, x: Id): seq<Id> {
    if x in g then g[x] else []
  }

  ghost function StepSet(g: Adjacency, s: set<Id>): set<Id> {
    set x, y | x in s && y in Succ(g, x) :: y
  }

  // The nodes at most n steps away from a.
  ghost function Within(g: Adjacency, a: Id, n: nat): set<Id> {
    if n == 0 then {a} else Within(g, a, n - 1) + StepSet(g, Within(g, a, n - 1))
  }

  ghost predicate Reaches(g: Adjacency, a: Id, b: Id) {
    exists n: nat :: b in Within(g, a, n)
  }

  // b can be reached from a by at least one step.
  ghost predicate ReachesProperly(g: Adjacency, a: Id, b: Id) {
    exists y :: y in Succ(g, a) && Reaches(g, y, b)
  }

  ghost predicate OnCycle(g: Adjacency, x: Id) {
    ReachesProperly(g, x, x)
  }

  ghost predicate Cyclic(g: Adjacency) {
    exists x :: OnCycle(g, x)
  }

  ghost predicate ReachesCycle(g: Adjacency, x: Id) {
    exists y :: Reaches(g, x, y) && OnCycle(g, y)
  }

  ghost predicate Closed(g: Adjacency, s: set<Id>) {
    forall x, y :: x in s && y in Succ(g, x) ==> y in s
  }

  // Every edge leads to a node of the graph.
  ghost predicate Internal(g: Adjacency) {
    forall x, y :: x in g && y in g[x] ==> y in g
  }

  predicate IsPath(g: Adjacency, p: seq<Id>) {
    p != [] && forall i :: 0 <= i < |p| - 1 ==> p[i + 1] in Succ(g, p[i])
  }

  lemma {:induction false} WithinMonotone(g: Adjacency, a: Id, m: nat, n: nat)
    requires m <= n
    ensures Within(g, a, m) <= Within(g, a, n)
    decreases n
  {
    if m < n {
      WithinMonotone(g, a, m, n - 1);
    }
  }

  lemma WithinStep(g: Adjacency, a: Id, n: nat, x: Id, y: Id)
    requires x in Within(g, a, n) && y in Succ(g, x)
    ensures y in Within(g, a, n + 1)
  {
  }

  lemma {:induction false} WithinHead(g: Adjacency, a: Id, b: Id, n: nat, c: Id)
    requires b in Succ(g, a) && c in Within(g, b, n)
    ensures c in Within(g, a, n + 1)
  {
    if n == 0 {
      assert a in Within(g, a, 0);
    } else if c in Within(g, b, n - 1) {
      WithinHead(g, a, b, n - 1, c);
    } else {
      var x :| x in Within(g, b, n - 1) && c in Succ(g, x);
      WithinHead(g, a, b, n - 1, x);
    }
  }

  // Being within n steps is having a path of at most n edges.
  lemma {:induction false} WithinIsPath(g: Adjacency, a: Id, b: Id, n: nat)
    ensures b in Within(g, a, n) <==>
            exists p :: IsPath(g, p) && p[0] == a && p[|p| - 1] == b && |p| <= n + 1
  {
    if b in Within(g, a, n) {
      var p := PathWithin(g, a, b, n);
    }
    if exists p :: IsPath(g, p) && p[0] == a && p[|p| - 1] == b && |p| <= n + 1 {
      var p :| IsPath(g, p) && p[0] == a && p[|p| - 1] == b && |p| <= n + 1;
      PathReaches(g, p);
      WithinMonotone(g, a, |p| - 1, n);
    }
  }

  lemma {:induction false} PathWithin(g: Adjacency, a: Id, b: Id, n: nat) returns (p: seq<Id>)
    requires b in Within(g, a, n)
    ensures IsPath(g, p) && p[0] == a && p[|p| - 1] == b && |p| <= n + 1
    decreases n
  {
    if n == 0 {
      p := [a];
    } else if b in Within(g, a, n - 1) {
      p := PathWithin(g, a, b, n - 1);
    } else {
      var x :| x in Within(g, a, n - 1) && b in Succ(g, x);
      var q := PathWithin(g, a, x, n - 1);
      p := q + [b];
    }
  }

  lemma {:induction false} PathReaches(g: Adjacency, p: seq<Id>)
    requires IsPath(g, p)
    ensures p[|p| - 1] in Within(g, p[0], |p| - 1)
  {
    if |p| > 1 {
      var q := p[..|p| - 1];
      assert forall i :: 0 <= i < |q| - 1 ==> q[i + 1] in Succ(g, q[i]);
      PathReaches(g, q);
      assert p[|p| - 2 + 1] in Succ(g, p[|p| - 2]);
    }
  }

  lemma ReachesSelf(g: Adjacency, a: Id)
    ensures Reaches(g, a, a)
  {
    assert a in Within(g, a, 0);
  }

  lemma ReachesStep(g: Adjacency, a: Id, b: Id, c: Id)
    requires Reaches(g, a, b) && c in Succ(g, b)
    ensures Reaches(g, a, c) && ReachesProperly(g, a, c)
  {
    var n: nat :| b in Within(g, a, n);
    WithinStep(g, a, n, b, c);
    ProperFromWithin(g, a, b, n, c);
  }

  lemma {:induction false} ProperFromWithin(g: Adjacency, a: Id, b: Id, n: nat, c: Id)
    requires b in Within(g, a, n) && c in Succ(g, b)
    ensures ReachesProperly(g, a, c)
    decreases n
  {
    if n == 0 {
      ReachesSelf(g, c);
    } else if b in Within(g, a, n - 1) {
      ProperFromWithin(g, a, b, n - 1, c);
    } else {
      var x :| x in Within(g, a, n - 1) && b in Succ(g, x);
      ProperFromWithin(g, a, x, n - 1, b);
      var y :| y in Succ(g, a) && Reaches(g, y, b);
      var k: nat :| b in Within(g, y, k);
      WithinStep(g, y, k, b, c);
    }
  }

  lemma ReachesHead(g: Adjacency, a: Id, b: Id, c: Id)
    requires b in Succ(g, a) && Reaches(g, b, c)
    ensures Reaches(g, a, c)
  {
    var n: nat :| c in Within(g, b, n);
    WithinHead(g, a, b, n, c);
  }

  lemma {:induction false} ClosedWithin(g: Adjacency, s: set<Id>, a: Id, n: nat)
    requires Closed(g, s) && a in s
    ensures Within(g, a, n) <= s
  {
    if n > 0 {
      ClosedWithin(g, s, a, n - 1);
    }
  }

  // A closed set keeps everything reachable from its members.
  lemma ClosedReaches(g: Adjacency, s: set<Id>, a: Id, b: Id)
    requires Closed(g, s) && a in s && Reaches(g, a, b)
    ensures b in s
  {
    var n: nat :| b in Within(g, a, n);
    ClosedWithin(g, s, a, n);
  }

  ghost function Universe(g: Adjacency, a: Id): set<Id> {
    {a} + StepSet(g, g.Keys)
  }

  // The finite set of all nodes reachable from a.
  ghost function ReachSet(g: Adjacency, a: Id): set<Id> {
    set x | x in Universe(g, a) && Reaches(g, a, x)
  }

  lemma InReachSet(g: Adjacency, a: Id, x: Id)
    ensures x in ReachSet(g, a) <==> Reaches(g, a, x)
  {
    assert Closed(g, Universe(g, a));
    if Reaches(g, a, x) {
      ClosedReaches(g, Universe(g, a), a, x);
    }
  }

  // The reachable set is the least closed set holding its start.
  lemma ReachSetLeast(g: Adjacency, a: Id)
    ensures a in ReachSet(g, a) && Closed(g, ReachSet(g, a))
    ensures forall s: set<Id> :: a in s && Closed(g, s) ==> ReachSet(g, a) <= s
  {
    ReachesSelf(g, a);
    InReachSet(g, a, a);
    forall x, y | x in ReachSet(g, a) && y in Succ(g, x) ensures y in ReachSet(g, a) {
      ReachesStep(g, a, x, y);
      InReachSet(g, a, y);
    }
    forall s: set<Id> | a in s && Closed(g, s) ensures ReachSet(g, a) <= s {
      forall x | x in ReachSet(g, a) ensures x in s {
        ClosedReaches(g, s, a, x);
      }
    }
  }

  lemma ReachesTransitive(g: Adjacency, a: Id, b: Id, c: Id)
    requires Reaches(g, a, b) && Reaches(g, b, c)
    ensures Reaches(g, a, c)
  {
    ReachSetLeast(g, a);
    InReachSet(g, a, b);
    ClosedReaches(g, ReachSet(g, a), b, c);
    InReachSet(g, a, c);
  }
}
