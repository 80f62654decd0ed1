// The depth-limited depth-first walk behind getUpstream and getDownstream, and exactly what it
// returns. A node is listed when first met, marked visited only when expanded, and never expanded
// again, so a node first met deep can hide what lies behind it.
module DepthWalk {
  import opened Common
  import opened Reachability

  datatype Walk = Walk(visited: set<Id>, result: seq<Id>) {
    function Visit(id: Id): Walk { Walk(visited + {id}, result) }
    function List(id: Id): Walk { Walk(visited, result + [id]) }
  }

  function Traverse(g: Adjacency, id: Id, depth: int, max: int, w: Walk): Walk
    decreases max - depth, 1, 0
  {
    if depth >= max || id in w.visited then w
    else TraverseAll(g, Succ(g, id), depth, max, w.Visit(id))
  }

  function TraverseAll(g: Adjacency, todo: seq<Id>, depth: int, max: int, w: Walk): Walk
    requires depth < max
    decreases max - depth, 0, |todo|
  {
    if todo == [] then w
    else
      var w' := if todo[0] in w.visited then w else Traverse(g, todo[0], depth + 1, max, w.List(todo[0]));
      TraverseAll(g, todo[1..], depth, max, w')
  }

  function WalkFrom(g: Adjacency, start: Id, max: int): seq<Id> {
    Traverse(g, start, 0, max, Walk({}, [])).result
  }

  // The recursive closure that the host code runs, with its captured set and list threaded through.
  method Expand(g: Adjacency, id: Id, depth: int, max: int, visited0: set<Id>, result0: seq<Id>)
    returns (visited: set<Id>, result: seq<Id>)
    ensures Walk(visited, result) == Traverse(g, id, depth, max, Walk(visited0, result0))
    decreases max - depth
  {
    visited, result := visited0, result0;
    if depth >= max || id in visited {
      return;
    }
    visited := visited + {id};
    var next := Succ(g, id);
    ghost var start := Walk(visited, result);
    assert next[0..] == next;
    for i := 0 to |next|
      invariant TraverseAll(g, next[i..], depth, max, Walk(visited, result)) == TraverseAll(g, next, depth, max, start)
    {
      assert next[i..][1..] == next[i + 1..];
      if next[i] !in visited {
        result := result + [next[i]];
        visited, result := Expand(g, next[i], depth + 1, max, visited, result);
      }
    }
    assert next[|next|..] == [];
  }

  // ---- Soundness: everything listed lies within the depth limit ----

  ghost predicate Sound(g: Adjacency, start: Id, max: nat, w: Walk) {
    forall x :: x in w.result ==> x in Within(g, start, max) && x in g
  }

  ghost predicate Grows(w: Walk, w': Walk) {
    w.visited <= w'.visited && w.result <= w'.result
  }

  // The start is visited, never listed, and every other visited node is listed.
  ghost predicate Accounted(start: Id, w: Walk) {
    start in w.visited && start !in w.result && forall x :: x in w.visited && x != start ==> x in w.result
  }

  lemma PrefixKeeps(a: seq<Id>, b: seq<Id>, x: Id)
    requires a <= b && x in a
    ensures x in b
  {
  }

  lemma {:induction false} TraverseSound(g: Adjacency, start: Id, id: Id, depth: nat, max: nat, w: Walk)
    requires Internal(g) && Sound(g, start, max, w)
    requires depth <= max && id in Within(g, start, depth)
    ensures Sound(g, start, max, Traverse(g, id, depth, max, w))
    decreases max - depth, 1, 0
  {
    if depth >= max || id in w.visited {
    } else {
      TraverseAllSound(g, start, id, Succ(g, id), depth, max, w.Visit(id));
    }
  }

  lemma {:induction false} TraverseAllSound(
    g: Adjacency, start: Id, id: Id, todo: seq<Id>, depth: nat, max: nat, w: Walk)
    requires Internal(g) && Sound(g, start, max, w)
    requires depth < max && id in Within(g, start, depth)
    requires forall y :: y in todo ==> y in Succ(g, id)
    ensures Sound(g, start, max, TraverseAll(g, todo, depth, max, w))
    decreases max - depth, 0, |todo|
  {
    if todo != [] {
      var y := todo[0];
      if y in w.visited {
        TraverseAllSound(g, start, id, todo[1..], depth, max, w);
      } else {
        WithinStep(g, start, depth, id, y);
        WithinMonotone(g, start, depth + 1, max);
        TraverseSound(g, start, y, depth + 1, max, w.List(y));
        TraverseAllSound(g, start, id, todo[1..], depth, max, Traverse(g, y, depth + 1, max, w.List(y)));
      }
    }
  }

  lemma {:induction false} TraverseGrows(g: Adjacency, start: Id, id: Id, depth: int, max: int, w: Walk)
    requires Accounted(start, w) && id in w.result
    ensures var w' := Traverse(g, id, depth, max, w); Grows(w, w') && Accounted(start, w')
    decreases max - depth, 1, 0
  {
    if depth >= max || id in w.visited {
    } else {
      TraverseAllGrows(g, start, Succ(g, id), depth, max, w.Visit(id));
    }
  }

  lemma {:induction false} TraverseAllGrows(
    g: Adjacency, start: Id, todo: seq<Id>, depth: int, max: int, w: Walk)
    requires depth < max && Accounted(start, w)
    ensures var w' := TraverseAll(g, todo, depth, max, w);
      Grows(w, w') && Accounted(start, w') && forall y :: y in todo && y != start ==> y in w'.result
    decreases max - depth, 0, |todo|
  {
    if todo != [] {
      var y := todo[0];
      var w1 := w;
      if y !in w.visited {
        assert w.List(y).result[|w.result|] == y;
        TraverseGrows(g, start, y, depth + 1, max, w.List(y));
        w1 := Traverse(g, y, depth + 1, max, w.List(y));
        PrefixKeeps(w.List(y).result, w1.result, y);
      }
      TraverseAllGrows(g, start, todo[1..], depth, max, w1);
      if y != start { PrefixKeeps(w1.result, TraverseAll(g, todo[1..], depth, max, w1).result, y); }
    }
  }

  // For every depth limit: only nodes within the limit, never the start, and all its neighbours.
  lemma WalkSound(g: Adjacency, start: Id, max: nat)
    requires Internal(g)
    ensures forall x :: x in WalkFrom(g, start, max) ==> x in g && x != start && x in Within(g, start, max)
    ensures max >= 1 ==> forall y :: y in Succ(g, start) && y != start ==> y in WalkFrom(g, start, max)
  {
    var w := Walk({}, []);
    TraverseSound(g, start, start, 0, max, w);
    if max >= 1 {
      TraverseAllGrows(g, start, Succ(g, start), 0, max, w.Visit(start));
    }
  }

  // ---- Completeness once the limit reaches the number of nodes ----

  // Every node other than the start has been listed.
  ghost predicate Everything(g: Adjacency, start: Id, w: Walk) {
    g.Keys - {start} <= Elems(w.result)
  }

  // Nodes expanded since w have all their successors expanded.
  ghost predicate Saturated(g: Adjacency, w: Walk, w': Walk) {
    forall x, y :: x in w'.visited && x !in w.visited && y in Succ(g, x) ==> y in w'.visited
  }

  ghost predicate Bounded(g: Adjacency, start: Id, depth: nat, w: Walk) {
    w.visited <= g.Keys && depth <= |w.visited|
    && (forall x :: x in w.visited && x != start ==> x in w.result)
  }

  lemma {:induction false} TraverseComplete(g: Adjacency, start: Id, id: Id, depth: nat, max: nat, w: Walk)
    requires Internal(g) && id in g && |g| <= max + 1 && depth <= max
    requires Bounded(g, start, depth, w) && (id == start || id in w.result)
    ensures var w' := Traverse(g, id, depth, max, w);
      Grows(w, w') && Bounded(g, start, depth, w')
      && (Everything(g, start, w') || (Saturated(g, w, w') && id in w'.visited))
    decreases max - depth, 1, 0
  {
    if id in w.visited {
    } else if depth >= max {
      LastOne(g, w.visited, id);
      forall x | x in g.Keys - {start} ensures x in Elems(w.result) {
        assert x in w.visited || x == id;
      }
    } else {
      TraverseAllComplete(g, start, Succ(g, id), depth, max, w.Visit(id));
    }
  }

  lemma LastOne(g: Adjacency, visited: set<Id>, id: Id)
    requires visited <= g.Keys && id in g && id !in visited && |g| <= |visited| + 1
    ensures g.Keys == visited + {id}
  {
    SubsetCard(visited + {id}, g.Keys);
    assert |g.Keys| == |g|;
  }

  lemma {:induction false} TraverseAllComplete(
    g: Adjacency, start: Id, todo: seq<Id>, depth: nat, max: nat, w: Walk)
    requires Internal(g) && |g| <= max + 1 && depth < max
    requires forall y :: y in todo ==> y in g
    requires Bounded(g, start, depth + 1, w)
    ensures var w' := TraverseAll(g, todo, depth, max, w);
      Grows(w, w') && Bounded(g, start, depth + 1, w')
      && (Everything(g, start, w')
          || (Saturated(g, w, w') && forall y :: y in todo ==> y in w'.visited))
    decreases max - depth, 0, |todo|
  {
    if todo != [] {
      var y := todo[0];
      var w1 := w;
      if y !in w.visited {
        assert y in w.List(y).result;
        TraverseComplete(g, start, y, depth + 1, max, w.List(y));
        w1 := Traverse(g, y, depth + 1, max, w.List(y));
      }
      TraverseAllComplete(g, start, todo[1..], depth, max, w1);
    }
  }

  // With a limit of at least |g| - 1 the walk finds exactly what is reachable.
  lemma WalkComplete(g: Adjacency, start: Id, max: nat)
    requires Internal(g) && start in g && max >= 1 && |g| <= max + 1
    ensures Elems(WalkFrom(g, start, max)) == ReachSet(g, start) - {start}
  {
    var w := Walk({}, []);
    var w' := Traverse(g, start, 0, max, w);
    WalkSound(g, start, max);
    TraverseComplete(g, start, start, 0, max, w);
    forall x | x in w'.result ensures x in ReachSet(g, start) {
      InReachSet(g, start, x);
    }
    forall x | x in ReachSet(g, start) - {start} ensures x in w'.result {
      InReachSet(g, start, x);
      if Everything(g, start, w') {
        ClosedReaches(g, g.Keys, start, x);
        assert x in Elems(w'.result);
      } else {
        assert Closed(g, w'.visited);
        ClosedReaches(g, w'.visited, start, x);
      }
    }
  }

  // ---- No duplicates once the limit is at least the number of nodes ----

  ghost predicate Tidy(g: Adjacency, start: Id, w: Walk) {
    && NoDup(w.result) && start !in w.result
    && (forall x :: x in w.result ==> x in w.visited)
    && w.visited <= g.Keys
  }

  lemma {:induction false} TraverseTidy(g: Adjacency, start: Id, id: Id, depth: nat, max: nat, w: Walk)
    requires Internal(g) && id in g && |g| <= max && id !in w.visited && depth <= |w.visited|
    requires start in w.visited || id == start
    requires Tidy(g, start, w.Visit(id))
    ensures var w' := Traverse(g, id, depth, max, w);
      Tidy(g, start, w') && Grows(w.Visit(id), w')
    decreases max - depth, 1, 0
  {
    SubsetCard(w.visited + {id}, g.Keys);
    assert |g.Keys| == |g|;
    TraverseAllTidy(g, start, Succ(g, id), depth, max, w.Visit(id));
  }

  lemma {:induction false} TraverseAllTidy(g: Adjacency, start: Id, todo: seq<Id>, depth: nat, max: nat, w: Walk)
    requires Internal(g) && |g| <= max && depth < max && depth + 1 <= |w.visited|
    requires forall y :: y in todo ==> y in g
    requires Tidy(g, start, w) && start in w.visited
    ensures var w' := TraverseAll(g, todo, depth, max, w);
      Tidy(g, start, w') && Grows(w, w')
    decreases max - depth, 0, |todo|
  {
    if todo != [] {
      var y := todo[0];
      var w1 := w;
      if y !in w.visited {
        TraverseTidy(g, start, y, depth + 1, max, w.List(y));
        w1 := Traverse(g, y, depth + 1, max, w.List(y));
        SubsetCard(w.visited, w1.visited);
      }
      TraverseAllTidy(g, start, todo[1..], depth, max, w1);
    }
  }

  lemma WalkNoDup(g: Adjacency, start: Id, max: nat)
    requires Internal(g) && start in g && |g| <= max
    ensures NoDup(WalkFrom(g, start, max))
  {
    var w := Walk({}, []);
    assert |g.Keys| == |g|;
    SubsetCard({start}, g.Keys);
    TraverseAllTidy(g, start, Succ(g, start), 0, max, w.Visit(start));
  }
}
