// When is a depth limit of d enough to find everything at most d steps away? Exactly when d <= 2 or
// the graph has at most d + 1 nodes: a threshold on sizes, proved in both directions.
module DepthLimit {
  import opened Common
  import opened Reachability
  import opened DepthWalk

  ghost predicate FindsAllWithin(g: Adjacency, start: Id, d: nat) {
    Elems(WalkFrom(g, start, d)) == Within(g, start, d) - {start}
  }

  // On every graph of n nodes, from every node, the walk of depth d misses nothing within d steps.
  ghost predicate AlwaysEnough(n: nat, d: nat) {
    forall g: Adjacency, start :: Internal(g) && |g| == n && start in g ==> FindsAllWithin(g, start, d)
  }

  // ---- d <= 2 is always enough ----

  // Every expanded node other than those in skip has its successors listed.
  ghost predicate Spread(g: Adjacency, start: Id, w: Walk) {
    forall x, y :: x in w.visited && x != start && y in Succ(g, x) && y != start ==> y in w.result
  }

  lemma {:induction false} LeavesOnly(g: Adjacency, start: Id, todo: seq<Id>, depth: int, w: Walk)
    requires Accounted(start, w)
    ensures TraverseAll(g, todo, depth, depth + 1, w).visited == w.visited
    decreases |todo|
  {
    if todo != [] {
      var w1 := if todo[0] in w.visited then w else w.List(todo[0]);
      LeavesOnly(g, start, todo[1..], depth, w1);
    }
  }

  lemma ExpandLeaf(g: Adjacency, start: Id, id: Id, w: Walk)
    requires Accounted(start, w) && Spread(g, start, w) && id in w.result
    ensures var w' := Traverse(g, id, 1, 2, w);
      Accounted(start, w') && Spread(g, start, w') && id in w'.visited && w.visited <= w'.visited
  {
    TraverseGrows(g, start, id, 1, 2, w);
    if id !in w.visited {
      var v := w.Visit(id);
      TraverseAllGrows(g, start, Succ(g, id), 1, 2, v);
      LeavesOnly(g, start, Succ(g, id), 1, v);
      var w' := TraverseAll(g, Succ(g, id), 1, 2, v);
      forall x, y | x in w'.visited && x != start && y in Succ(g, x) && y != start ensures y in w'.result {
        if x != id {
          PrefixKeeps(w.result, w'.result, y);
        }
      }
    }
  }

  lemma {:induction false} ExpandAll(g: Adjacency, start: Id, todo: seq<Id>, w: Walk)
    requires Accounted(start, w) && Spread(g, start, w)
    ensures var w' := TraverseAll(g, todo, 0, 2, w);
      Spread(g, start, w') && w.visited <= w'.visited && forall y :: y in todo ==> y in w'.visited
    decreases |todo|
  {
    if todo != [] {
      var y := todo[0];
      var w1 := w;
      if y !in w.visited {
        assert w.List(y).result[|w.result|] == y;
        ExpandLeaf(g, start, y, w.List(y));
        w1 := Traverse(g, y, 1, 2, w.List(y));
      }
      ExpandAll(g, start, todo[1..], w1);
    }
  }

  lemma ShallowEnough(g: Adjacency, start: Id, d: nat)
    requires Internal(g) && start in g && d <= 2
    ensures FindsAllWithin(g, start, d)
  {
    WalkSound(g, start, d);
    assert Within(g, start, 0) == {start};
    assert d >= 1 ==> Within(g, start, 1) == {start} + StepSet(g, {start});
    if d == 2 {
      var v := Walk({}, []).Visit(start);
      ExpandAll(g, start, Succ(g, start), v);
      forall z | z in Within(g, start, 2) - {start} ensures z in WalkFrom(g, start, 2) {
        if z in Within(g, start, 1) {
        } else {
          var y :| y in Within(g, start, 1) && z in Succ(g, y);
        }
      }
    }
  }

  // ---- at most d + 1 nodes is always enough ----

  lemma SmallEnough(g: Adjacency, start: Id, d: nat)
    requires Internal(g) && start in g && |g| <= d + 1 && d >= 1
    ensures FindsAllWithin(g, start, d)
  {
    WalkSound(g, start, d);
    WalkComplete(g, start, d);
    forall x | x in Within(g, start, d) ensures x in ReachSet(g, start) {
      InReachSet(g, start, x);
    }
  }

  // ---- d >= 3 with at least d + 2 nodes: a chain with a shortcut to its end ----

  function Name(i: nat): Id {
    seq(i + 1, _ => 'n')
  }

  function Names(n: nat): set<Id> {
    set i: nat | i < n :: Name(i)
  }

  lemma NameInjective(i: nat, j: nat)
    ensures Name(i) == Name(j) ==> i == j
  {
  }

  lemma {:induction false} NamesCount(n: nat)
    ensures |Names(n)| == n
  {
    if n > 0 {
      NamesCount(n - 1);
      assert Names(n) == Names(n - 1) + {Name(n - 1)};
      forall i: nat | i < n - 1 ensures Name(i) != Name(n - 1) { NameInjective(i, n - 1); }
    }
  }

  // n0 -> n1 -> ... -> n(d+1), with n0 -> n(d-1) listed second, and n - d - 2 isolated nodes.
  function ShortcutChain(n: nat, d: nat): Adjacency
    requires d >= 3
  {
    map id | id in Names(n) ::
      var i := |id| - 1;
      if i == 0 then [Name(1), Name(d - 1)]
      else if 1 <= i <= d then [Name(i + 1)]
      else []
  }

  lemma ChainInternal(n: nat, d: nat)
    requires d >= 3 && n >= d + 2
    ensures Internal(ShortcutChain(n, d)) && |ShortcutChain(n, d)| == n
  {
    var g := ShortcutChain(n, d);
    NamesCount(n);
    assert g.Keys == Names(n);
    assert |g| == |g.Keys|;
    forall x, y | x in g && y in g[x] ensures y in g {
      var i: nat :| i < n && x == Name(i);
      assert |x| == i + 1;
      assert y == Name(1) || y == Name(d - 1) || (i <= d && y == Name(i + 1));
    }
  }

  // Walking down the chain from ni at depth i expands n(i)..n(d-1) and never lists n(d+1).
  lemma {:induction false} ChainWalk(n: nat, d: nat, i: nat, w: Walk)
    requires d >= 3 && n >= d + 2 && 1 <= i <= d
    requires w.visited == Names(i) && Name(d + 1) !in w.result
    ensures var w' := Traverse(ShortcutChain(n, d), Name(i), i, d, w);
      w'.visited == Names(d) && Name(d + 1) !in w'.result
    decreases d - i
  {
    if i < d {
      var g := ShortcutChain(n, d);
      forall j: nat | j < i ensures Name(j) != Name(i) && Name(j) != Name(i + 1) {
        NameInjective(j, i);
        NameInjective(j, i + 1);
      }
      NameInjective(i, i + 1);
      NameInjective(i + 1, d + 1);
      var v := w.Visit(Name(i));
      assert v.visited == Names(i + 1);
      assert Name(i + 1) !in v.visited;
      var v' := Traverse(g, Name(i + 1), i + 1, d, v.List(Name(i + 1)));
      ChainWalk(n, d, i + 1, v.List(Name(i + 1)));
      assert [Name(i + 1)][1..] == [];
      assert TraverseAll(g, [Name(i + 1)], i, d, v) == v';
    }
  }

  lemma ChainMisses(n: nat, d: nat)
    requires d >= 3 && n >= d + 2
    ensures Name(d + 1) !in WalkFrom(ShortcutChain(n, d), Name(0), d)
    ensures Name(d + 1) in Within(ShortcutChain(n, d), Name(0), d)
    ensures Name(d + 1) != Name(0)
  {
    var g := ShortcutChain(n, d);
    var w := Walk({}, []).Visit(Name(0));
    NameInjective(0, 1);
    NameInjective(1, d + 1);
    NameInjective(0, d + 1);
    assert w.visited == Names(1);
    ChainWalk(n, d, 1, w.List(Name(1)));
    var w1 := Traverse(g, Name(1), 1, d, w.List(Name(1)));
    assert [Name(1), Name(d - 1)][1..] == [Name(d - 1)];
    assert Name(d - 1) in w1.visited;
    assert TraverseAll(g, [Name(d - 1)], 0, d, w1) == w1;
    assert TraverseAll(g, [Name(1), Name(d - 1)], 0, d, w) == w1;
    WithinStep(g, Name(0), 0, Name(0), Name(d - 1));
    WithinStep(g, Name(0), 1, Name(d - 1), Name(d));
    WithinStep(g, Name(0), 2, Name(d), Name(d + 1));
    WithinMonotone(g, Name(0), 3, d);
  }

  // The exact threshold.
  lemma DepthThreshold(n: nat, d: nat)
    ensures AlwaysEnough(n, d) <==> d <= 2 || n <= d + 1
  {
    if d <= 2 || n <= d + 1 {
      forall g: Adjacency, start | Internal(g) && |g| == n && start in g ensures FindsAllWithin(g, start, d) {
        if d <= 2 {
          ShallowEnough(g, start, d);
        } else {
          SmallEnough(g, start, d);
        }
      }
    } else {
      var g := ShortcutChain(n, d);
      ChainInternal(n, d);
      ChainMisses(n, d);
      assert Name(d + 1) in Within(g, Name(0), d) - {Name(0)};
      assert !FindsAllWithin(g, Name(0), d);
    }
  }
}
