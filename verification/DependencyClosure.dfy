// Breadth-first closure with safety caps: exact when no cap is hit, and always a nearest-first prefix.
module DependencyClosure {
  import opened Common
  import opened Reachability
  import opened GraphModel

  datatype Limit = MaxCost | MaxNodes

  datatype Traversal = Traversal(nodes: seq<Id>, cost: int, limit: Option<Limit>) {
    predicate LimitReached() { limit.Some? }
  }

  datatype Options = Options(maxNodes: int, maxCost: int)

  // One step upstream: depends_on targets, then producers. Missing ids stay in the lists and are
  // skipped when they are taken from the queue.
  function UpstreamSteps(g: Graph): Adjacency {
    map id | id in g.nodes ::
      Targets(OfType(g.EdgesFrom(id), DependsOn)) + Sources(OfType(g.EdgesTo(id), Produces))
  }

  // One step downstream: produced nodes, then dependents.
  function DownstreamSteps(g: Graph): Adjacency {
    map id | id in g.nodes ::
      Targets(OfType(g.EdgesFrom(id), Produces)) + Sources(OfType(g.EdgesTo(id), DependsOn))
  }

  // In terms of edges: upstream goes along depends_on and back along produces.
  lemma {:induction false} UpstreamStepsAre(g: Graph, x: Id, y: Id)
    ensures y in Succ(UpstreamSteps(g), x) <==>
      && x in g.nodes
      && exists e ::
           || (e in g.EdgesFrom(x) && e.etype == DependsOn && e.to == y)
           || (e in g.EdgesTo(x) && e.etype == Produces && e.from == y)
  {
    var out, back := OfType(g.EdgesFrom(x), DependsOn), OfType(g.EdgesTo(x), Produces);
    assert y in Targets(out) <==> exists e :: e in out && e.to == y;
    assert y in Sources(back) <==> exists e :: e in back && e.from == y;
  }

  // Downstream goes along produces and back along depends_on.
  lemma {:induction false} DownstreamStepsAre(g: Graph, x: Id, y: Id)
    ensures y in Succ(DownstreamSteps(g), x) <==>
      && x in g.nodes
      && exists e ::
           || (e in g.EdgesFrom(x) && e.etype == Produces && e.to == y)
           || (e in g.EdgesTo(x) && e.etype == DependsOn && e.from == y)
  {
    var out, back := OfType(g.EdgesFrom(x), Produces), OfType(g.EdgesTo(x), DependsOn);
    assert y in Targets(out) <==> exists e :: e in out && e.to == y;
    assert y in Sources(back) <==> exists e :: e in back && e.from == y;
  }

  // addEdge rejects depends_on, so on a graph built through the context graph's own operations both
  // traversals follow produces edges alone.
  lemma {:induction false} OwnVocabularySteps(g: Graph, x: Id)
    requires g.WellIndexed()
    ensures Succ(UpstreamSteps(g), x) == Sources(OfType(g.EdgesTo(x), Produces))
    ensures Succ(DownstreamSteps(g), x) == Targets(OfType(g.EdgesFrom(x), Produces))
  {
    NoDependsOn(g, x);
    ProducesOnly(g, x);
  }

  lemma {:induction false} NoDependsOn(g: Graph, x: Id)
    requires g.WellIndexed()
    ensures OfType(g.EdgesFrom(x), DependsOn) == [] && OfType(g.EdgesTo(x), DependsOn) == []
    ensures x !in g.nodes ==> g.EdgesFrom(x) == [] && g.EdgesTo(x) == []
  {
    forall e | e in g.EdgesFrom(x) || e in g.EdgesTo(x) ensures e.etype != DependsOn {
      assert g.HasEdge(e);
    }
    NoneOfType(g.EdgesFrom(x), DependsOn);
    NoneOfType(g.EdgesTo(x), DependsOn);
  }

  lemma {:induction false} ProducesOnly(g: Graph, x: Id)
    requires OfType(g.EdgesFrom(x), DependsOn) == [] && OfType(g.EdgesTo(x), DependsOn) == []
    requires x !in g.nodes ==> g.EdgesFrom(x) == [] && g.EdgesTo(x) == []
    ensures Succ(UpstreamSteps(g), x) == Sources(OfType(g.EdgesTo(x), Produces))
    ensures Succ(DownstreamSteps(g), x) == Targets(OfType(g.EdgesFrom(x), Produces))
  {
    assert [] + Sources(OfType(g.EdgesTo(x), Produces)) == Sources(OfType(g.EdgesTo(x), Produces));
    assert Targets(OfType(g.EdgesFrom(x), Produces)) + [] == Targets(OfType(g.EdgesFrom(x), Produces));
  }

  lemma {:induction false} NoneOfType(es: seq<Edge>, t: EdgeType)
    requires forall e :: e in es ==> e.etype != t
    ensures OfType(es, t) == []
  {
    if es != [] { NoneOfType(es[1..], t); }
  }

  // ---- the promise of a capped traversal ----

  // Listed nodes exist, are distinct and reachable, and come nearest first: whenever a later or an
  // unlisted node is within k steps, so is every earlier one.
  ghost predicate NearestFirst(g: Adjacency, start: Id, nodes: seq<Id>) {
    && NoDup(nodes)
    && (forall x :: x in nodes ==> x in g && Reaches(g, start, x))
    && (forall i, j, k: nat :: 0 <= i < j < |nodes| && nodes[j] in Within(g, start, k) ==> nodes[i] in Within(g, start, k))
    && (forall x, y, k: nat :: x in nodes && y in g && y !in nodes && y in Within(g, start, k) ==> x in Within(g, start, k))
  }

  ghost predicate Promise(g: Adjacency, start: Id, o: Options, r: Traversal) {
    && NearestFirst(g, start, r.nodes)
    && |r.nodes| <= (if o.maxNodes < 0 then 0 else o.maxNodes)
    && r.cost <= (if o.maxCost < 0 then 0 else o.maxCost) + 1
    && (r.limit == Some(MaxNodes) ==> |r.nodes| >= o.maxNodes)
    && (r.limit == Some(MaxCost) <==> r.cost > o.maxCost)
    && (r.limit == None ==> Elems(r.nodes) == ReachSet(g, start) * g.Keys)
    && |r.nodes| <= r.cost && 0 < r.cost
    && (r.limit == Some(MaxCost) && o.maxCost >= 0 ==> r.cost == o.maxCost + 1)
  }

  // ---- search state, with ghost distance labels ----

  datatype Entry = Entry(id: Id, level: nat)

  datatype Search = Search(visited: set<Id>, listed: seq<Entry>, queue: seq<Entry>)

  ghost function Names(es: seq<Entry>): (r: seq<Id>)
    ensures |r| == |es|
  {
    seq(|es|, i requires 0 <= i < |es| => es[i].id)
  }

  // The layers of a graph around the start: layer k holds the nodes at most k steps away. The lemmas
  // about search states use only what is stated here.
  type Layers = nat -> set<Id>

  ghost predicate Layered(g: Adjacency, start: Id, w: Layers) {
    Starts(start, w) && StepsOut(g, w) && Widens(w) && HasParents(g, w)
  }

  ghost predicate Starts(start: Id, w: Layers) {
    forall x :: x in w(0) <==> x == start
  }

  ghost predicate StepsOut(g: Adjacency, w: Layers) {
    forall k: nat, x, y :: x in w(k) && y in Succ(g, x) ==> y in w(k + 1)
  }

  ghost predicate Widens(w: Layers) {
    forall m: nat, n: nat :: m <= n ==> w(m) <= w(n)
  }

  ghost predicate HasParents(g: Adjacency, w: Layers) {
    forall k: nat, y :: k > 0 && y in w(k) && y !in w(k - 1) ==> HasParent(g, w(k - 1), y)
  }

  ghost predicate HasParent(g: Adjacency, layer: set<Id>, y: Id) {
    exists x :: x in layer && y in Succ(g, x)
  }

  ghost function LayersOf(g: Adjacency, start: Id): Layers {
    (k: nat) => Within(g, start, k)
  }

  lemma LayersWiden(g: Adjacency, start: Id)
    ensures Widens(LayersOf(g, start))
  {
    forall m: nat, n: nat | m <= n ensures LayersOf(g, start)(m) <= LayersOf(g, start)(n) {
      WithinMonotone(g, start, m, n);
    }
  }

  lemma LayersStep(g: Adjacency, start: Id)
    ensures StepsOut(g, LayersOf(g, start)) && HasParents(g, LayersOf(g, start))
  {
  }

  lemma LayersOfLayered(g: Adjacency, start: Id)
    ensures Layered(g, start, LayersOf(g, start))
  {
    LayersWiden(g, start);
    LayersStep(g, start);
  }

  ghost predicate Near(w: Layers, e: Entry) {
    e.id in w(e.level)
  }

  ghost predicate AtDistance(w: Layers, e: Entry) {
    Near(w, e) && (e.level == 0 || e.id !in w(e.level - 1))
  }

  // y waits in the queue with a label of at most d.
  ghost predicate Queued(q: seq<Entry>, y: Id, d: int) {
    q != [] && ((q[0].id == y && q[0].level <= d) || Queued(q[1..], y, d))
  }

  ghost predicate Beyond(q: seq<Entry>, k: int) {
    forall e :: e in q ==> e.level > k
  }

  ghost predicate Ascending(q: seq<Entry>) {
    forall i, j :: 0 <= i < j < |q| ==> q[i].level <= q[j].level
  }

  // Labels of the list and of the queue never decrease, and the queue spans at most two levels.
  ghost predicate Levels(s: Search) {
    && Ascending(s.listed) && Ascending(s.queue)
    && (forall e, f :: e in s.listed && f in s.queue ==> e.level <= f.level)
    && (forall f :: f in s.queue ==> f.level <= s.queue[0].level + 1)
  }

  // Labels of listed nodes are their distances, labels of queued nodes bound theirs.
  ghost predicate Labelled(w: Layers, s: Search) {
    && (forall e :: e in s.listed ==> AtDistance(w, e))
    && (forall f :: f in s.queue ==> Near(w, f))
  }

  // Nothing is lost: the start and the successors of listed nodes are visited or queued.
  ghost predicate Covered(g: Adjacency, start: Id, s: Search) {
    && (start in s.visited || Queued(s.queue, start, 0))
    && (forall e, y :: e in s.listed && y in Succ(g, e.id) ==> y in s.visited || Queued(s.queue, y, e.level + 1))
  }

  // Listed means visited and existing.
  ghost predicate Booked(g: Adjacency, s: Search) {
    && (forall e :: e in s.listed ==> e.id in s.visited && e.id in g)
    && (forall x :: x in s.visited && x in g ==> exists e :: e in s.listed && e.id == x)
    && NoDup(Names(s.listed))
  }

  ghost predicate Inv(g: Adjacency, start: Id, w: Layers, s: Search) {
    Booked(g, s) && Levels(s) && Labelled(w, s) && Covered(g, start, s)
  }

  lemma {:induction false} BeyondNotQueued(q: seq<Entry>, y: Id, k: int, d: int)
    requires Beyond(q, k) && d <= k
    ensures !Queued(q, y, d)
  {
    if q != [] {
      assert q[0] in q;
      BeyondNotQueued(q[1..], y, k, d);
    }
  }

  lemma {:induction false} QueuedAppend(q: seq<Entry>, r: seq<Entry>, y: Id, d: int)
    ensures Queued(q + r, y, d) <==> Queued(q, y, d) || Queued(r, y, d)
  {
    if q == [] {
      assert q + r == r;
    } else {
      assert (q + r)[1..] == q[1..] + r;
      QueuedAppend(q[1..], r, y, d);
    }
  }

  lemma {:induction false} QueuedMember(q: seq<Entry>, e: Entry)
    requires e in q
    ensures Queued(q, e.id, e.level)
  {
    if q[0] != e {
      QueuedMember(q[1..], e);
    }
  }

  lemma FrontierStep(g: Adjacency, start: Id, w: Layers, s: Search, k: nat, x: Id, y: Id)
    requires Layered(g, start, w) && Booked(g, s) && Labelled(w, s) && Covered(g, start, s) && Beyond(s.queue, k)
    requires k > 0 && x in w(k - 1) && x in s.visited && x in g && y in Succ(g, x)
    ensures y in s.visited
  {
    var e :| e in s.listed && e.id == x;
    BeyondNotQueued(s.queue, y, k, e.level + 1);
  }

  // When every label in the queue exceeds k, everything within k steps has been visited.
  lemma {:induction false} Frontier(g: Adjacency, start: Id, w: Layers, s: Search, k: nat)
    requires Layered(g, start, w) && Booked(g, s) && Labelled(w, s) && Covered(g, start, s) && Beyond(s.queue, k)
    ensures forall y :: y in w(k) && y in g ==> y in s.visited
    decreases k
  {
    if k == 0 {
      BeyondNotQueued(s.queue, start, 0, 0);
    } else {
      Frontier(g, start, w, s, k - 1);
      forall y | y in w(k) && y in g && y !in w(k - 1) ensures y in s.visited {
        assert HasParent(g, w(k - 1), y);
        var x :| x in w(k - 1) && y in Succ(g, x);
        FrontierStep(g, start, w, s, k, x, y);
      }
    }
  }

  lemma NextAtDistance(g: Adjacency, start: Id, w: Layers, s: Search)
    requires Layered(g, start, w) && Inv(g, start, w, s)
    requires s.queue != [] && s.queue[0].id !in s.visited && s.queue[0].id in g
    ensures AtDistance(w, s.queue[0])
  {
    assert s.queue[0] in s.queue;
    if s.queue[0].level > 0 {
      assert Beyond(s.queue, s.queue[0].level - 1);
      Frontier(g, start, w, s, s.queue[0].level - 1);
    }
  }

  // Dropping the head of the queue once it has been visited.
  ghost function Skip(s: Search): Search
    requires s.queue != []
  {
    s.(visited := s.visited + {s.queue[0].id}, queue := s.queue[1..])
  }

  lemma SkipCovered(g: Adjacency, start: Id, s: Search)
    requires Covered(g, start, s) && s.queue != []
    ensures Covered(g, start, Skip(s))
  {
  }

  lemma SkipKeeps(g: Adjacency, start: Id, w: Layers, s: Search)
    requires Inv(g, start, w, s) && s.queue != []
    requires s.queue[0].id in s.visited || s.queue[0].id !in g
    ensures Inv(g, start, w, Skip(s))
  {
  }

  function NotIn(ns: seq<Id>, visited: set<Id>): (r: seq<Id>)
    ensures forall y :: y in r <==> y in ns && y !in visited
  {
    if ns == [] then []
    else NotIn(ns[..|ns| - 1], visited) + (if ns[|ns| - 1] in visited then [] else [ns[|ns| - 1]])
  }

  ghost function AtLevel(ids: seq<Id>, level: nat): (r: seq<Entry>)
    ensures Names(r) == ids
    ensures forall e :: e in r <==> e.id in ids && e.level == level
  {
    var r := seq(|ids|, i requires 0 <= i < |ids| => Entry(ids[i], level));
    assert forall i :: 0 <= i < |ids| ==> r[i] == Entry(ids[i], level);
    r
  }

  // Listing the head of the queue and queueing its unvisited successors one level further.
  ghost function ListHead(g: Adjacency, s: Search): Search
    requires s.queue != []
  {
    Search(Skip(s).visited, s.listed + [s.queue[0]], Skip(s).queue + Added(g, s))
  }

  ghost function Added(g: Adjacency, s: Search): seq<Entry>
    requires s.queue != []
  {
    AtLevel(NotIn(Succ(g, s.queue[0].id), Skip(s).visited), s.queue[0].level + 1)
  }

  lemma ListHeadQueues(g: Adjacency, s: Search, e: Entry, y: Id)
    requires s.queue != [] && y in Succ(g, e.id) && (e in s.listed || e == s.queue[0])
    requires e in s.listed ==> y in Skip(s).visited || Queued(Skip(s).queue, y, e.level + 1)
    ensures y in ListHead(g, s).visited || Queued(ListHead(g, s).queue, y, e.level + 1)
  {
    var added := Added(g, s);
    QueuedAppend(Skip(s).queue, added, y, e.level + 1);
    if e == s.queue[0] && y !in Skip(s).visited {
      assert Entry(y, e.level + 1) in added;
      QueuedMember(added, Entry(y, e.level + 1));
    }
  }

  lemma ListHeadCovered(g: Adjacency, start: Id, s: Search)
    requires Covered(g, start, s) && s.queue != []
    ensures Covered(g, start, ListHead(g, s))
  {
    var u := ListHead(g, s);
    SkipCovered(g, start, s);
    QueuedAppend(Skip(s).queue, Added(g, s), start, 0);
    forall e, y | e in u.listed && y in Succ(g, e.id) ensures y in u.visited || Queued(u.queue, y, e.level + 1) {
      ListHeadQueues(g, s, e, y);
    }
  }

  lemma ListHeadLevels(g: Adjacency, s: Search)
    requires Levels(s) && s.queue != []
    ensures Levels(ListHead(g, s))
  {
  }

  lemma ListHeadLabelled(g: Adjacency, start: Id, w: Layers, s: Search)
    requires Layered(g, start, w) && Inv(g, start, w, s) && s.queue != [] && s.queue[0].id !in s.visited && s.queue[0].id in g
    ensures Labelled(w, ListHead(g, s))
  {
    var u := ListHead(g, s);
    var h := s.queue[0];
    NextAtDistance(g, start, w, s);
    forall f | f in u.queue ensures Near(w, f) {
      if f !in s.queue {
        assert h.id in w(h.level) && f.id in Succ(g, h.id);
      }
    }
  }

  lemma ListHeadBooked(g: Adjacency, s: Search)
    requires Booked(g, s) && s.queue != [] && s.queue[0].id !in s.visited && s.queue[0].id in g
    ensures Booked(g, ListHead(g, s))
  {
    var u := ListHead(g, s);
    forall x | x in u.visited && x in g ensures exists e :: e in u.listed && e.id == x {
      if x in s.visited {
        var e :| e in s.listed && e.id == x;
        assert e in u.listed;
      } else {
        assert s.queue[0] in u.listed;
      }
    }
    forall i | 0 <= i < |s.listed| ensures s.listed[i].id != s.queue[0].id {
      assert s.listed[i] in s.listed;
    }
    assert Names(u.listed) == Names(s.listed) + [s.queue[0].id];
  }

  lemma ListHeadKeeps(g: Adjacency, start: Id, w: Layers, s: Search)
    requires Layered(g, start, w) && Inv(g, start, w, s) && s.queue != [] && s.queue[0].id !in s.visited && s.queue[0].id in g
    ensures Inv(g, start, w, ListHead(g, s))
  {
    ListHeadBooked(g, s);
    ListHeadLevels(g, s);
    ListHeadLabelled(g, start, w, s);
    ListHeadCovered(g, start, s);
  }

  // Every state of the search keeps the nearest-first promise.
  lemma InvNearestFirst(g: Adjacency, start: Id, s: Search)
    requires Inv(g, start, LayersOf(g, start), s)
    ensures NearestFirst(g, start, Names(s.listed))
  {
    var nodes := Names(s.listed);
    var w := LayersOf(g, start);
    LayersOfLayered(g, start);
    forall x | x in nodes ensures x in g && Reaches(g, start, x) {
      var i :| 0 <= i < |nodes| && nodes[i] == x;
      assert s.listed[i] in s.listed;
      assert Near(w, s.listed[i]);
      assert x in Within(g, start, s.listed[i].level);
    }
    forall i, j, k: nat | 0 <= i < j < |nodes| && nodes[j] in Within(g, start, k)
      ensures nodes[i] in Within(g, start, k)
    {
      ListedInOrder(g, start, w, s, i, j, k);
    }
    forall x, y, k: nat | x in nodes && y in g && y !in nodes && y in Within(g, start, k)
      ensures x in Within(g, start, k)
    {
      var i :| 0 <= i < |nodes| && nodes[i] == x;
      UnlistedFar(g, start, w, s, i, y, k);
    }
  }

  lemma ListedInOrder(g: Adjacency, start: Id, w: Layers, s: Search, i: nat, j: nat, k: nat)
    requires Layered(g, start, w) && Inv(g, start, w, s) && i < j < |s.listed| && s.listed[j].id in w(k)
    ensures s.listed[i].id in w(k)
  {
    assert s.listed[i] in s.listed && s.listed[j] in s.listed;
  }

  lemma VisitedNamed(g: Adjacency, s: Search, y: Id)
    requires Booked(g, s) && y in s.visited && y in g
    ensures y in Names(s.listed)
  {
    var e :| e in s.listed && e.id == y;
    var j :| 0 <= j < |s.listed| && s.listed[j] == e;
    assert Names(s.listed)[j] == y;
  }

  lemma UnlistedFar(g: Adjacency, start: Id, w: Layers, s: Search, i: nat, y: Id, k: nat)
    requires Layered(g, start, w) && Inv(g, start, w, s) && i < |s.listed|
    requires y in g && y !in Names(s.listed) && y in w(k)
    ensures s.listed[i].id in w(k)
  {
    assert s.listed[i] in s.listed;
    if s.listed[i].level > k {
      assert Beyond(s.queue, k);
      Frontier(g, start, w, s, k);
      VisitedNamed(g, s, y);
    }
  }

  // With an empty queue the list is exactly the reachable set of existing nodes.
  lemma DoneExact(g: Adjacency, start: Id, s: Search)
    requires Inv(g, start, LayersOf(g, start), s) && s.queue == []
    ensures Elems(Names(s.listed)) == ReachSet(g, start) * g.Keys
  {
    InvNearestFirst(g, start, s);
    LayersOfLayered(g, start);
    forall x ensures x in Names(s.listed) <==> x in ReachSet(g, start) * g.Keys {
      InReachSet(g, start, x);
      if x in g && Reaches(g, start, x) {
        var k: nat :| x in Within(g, start, k);
        Frontier(g, start, LayersOf(g, start), s, k);
        VisitedNamed(g, s, x);
      }
    }
  }

  lemma StepNames(g: Adjacency, s: Search)
    requires s.queue != []
    ensures Names(Skip(s).queue) == Names(s.queue)[1..]
    ensures Names(ListHead(g, s).listed) == Names(s.listed) + [s.queue[0].id]
    ensures Names(ListHead(g, s).queue)
      == Names(s.queue)[1..] + NotIn(Succ(g, s.queue[0].id), s.visited + {s.queue[0].id})
  {
  }

  lemma StateFacts(g: Adjacency, start: Id, o: Options, s: Search)
    requires Inv(g, start, LayersOf(g, start), s)
    ensures NearestFirst(g, start, Names(s.listed))
    ensures s.queue == [] ==> Elems(Names(s.listed)) == ReachSet(g, start) * g.Keys
  {
    InvNearestFirst(g, start, s);
    if s.queue == [] {
      DoneExact(g, start, s);
    }
  }

  // One turn of the loop: the head of the queue is dropped, or listed and its successors queued.
  ghost function Turn(g: Adjacency, s: Search): Search
    requires s.queue != []
  {
    if s.queue[0].id in s.visited || s.queue[0].id !in g then Skip(s) else ListHead(g, s)
  }

  lemma TurnKeeps(g: Adjacency, start: Id, s: Search)
    requires Inv(g, start, LayersOf(g, start), s) && s.queue != []
    ensures Inv(g, start, LayersOf(g, start), Turn(g, s))
  {
    LayersOfLayered(g, start);
    if s.queue[0].id in s.visited || s.queue[0].id !in g {
      SkipKeeps(g, start, LayersOf(g, start), s);
    } else {
      ListHeadKeeps(g, start, LayersOf(g, start), s);
    }
  }

  ghost predicate Mirrors(s: Search, visited: set<Id>, nodes: seq<Id>, queue: seq<Id>) {
    s.visited == visited && Names(s.listed) == nodes && Names(s.queue) == queue
  }

  method Traverse(g: Adjacency, start: Id, o: Options) returns (r: Traversal)
    ensures Promise(g, start, o, r)
  {
    var visited: set<Id> := {};
    var nodes: seq<Id> := [];
    var cost := 0;
    var queue := [start];
    ghost var s := Search({}, [], [Entry(start, 0)]);
    LayersOfLayered(g, start);
    StartInv(g, start, LayersOf(g, start));
    while queue != []
      invariant Mirrors(s, visited, nodes, queue)
      invariant Inv(g, start, LayersOf(g, start), s)
      invariant 0 <= cost <= (if o.maxCost < 0 then 0 else o.maxCost)
      invariant cost == 0 ==> queue != []
      invariant |nodes| <= cost
      invariant |nodes| <= (if o.maxNodes < 0 then 0 else o.maxNodes)
      decreases o.maxCost - cost
    {
      cost := cost + 1;
      if cost > o.maxCost {
        StateFacts(g, start, o, s);
        return Traversal(nodes, cost, Some(MaxCost));
      }
      if |nodes| >= o.maxNodes {
        StateFacts(g, start, o, s);
        return Traversal(nodes, cost, Some(MaxNodes));
      }
      TurnKeeps(g, start, s);
      StepNames(g, s);
      s := Turn(g, s);
      visited, nodes, queue := TakeNext(g, visited, nodes, queue);
    }
    StateFacts(g, start, o, s);
    return Traversal(nodes, cost, None);
  }

  // The part of the loop body after the caps.
  method TakeNext(g: Adjacency, visited0: set<Id>, nodes0: seq<Id>, queue0: seq<Id>)
    returns (visited: set<Id>, nodes: seq<Id>, queue: seq<Id>)
    requires queue0 != []
    ensures visited == visited0 + {queue0[0]}
    ensures queue0[0] in visited0 || queue0[0] !in g ==> nodes == nodes0 && queue == queue0[1..]
    ensures queue0[0] !in visited0 && queue0[0] in g ==>
      nodes == nodes0 + [queue0[0]] && queue == queue0[1..] + NotIn(Succ(g, queue0[0]), visited)
  {
    var nodeId := queue0[0];
    visited, nodes, queue := visited0 + {nodeId}, nodes0, queue0[1..];
    if nodeId in visited0 || nodeId !in g {
      return;
    }
    nodes := nodes + [nodeId];
    queue := Enqueue(queue, g[nodeId], visited);
  }

  // The two loops that push the unvisited ends of the followed edges.
  method Enqueue(queue0: seq<Id>, neighbours: seq<Id>, visited: set<Id>) returns (queue: seq<Id>)
    ensures queue == queue0 + NotIn(neighbours, visited)
  {
    queue := queue0;
    for i := 0 to |neighbours|
      invariant queue == queue0 + NotIn(neighbours[..i], visited)
    {
      assert neighbours[..i + 1][..i] == neighbours[..i];
      if neighbours[i] !in visited {
        queue := queue + [neighbours[i]];
      }
    }
    assert neighbours[..|neighbours|] == neighbours;
  }

  lemma StartInv(g: Adjacency, start: Id, w: Layers)
    requires Layered(g, start, w)
    ensures Inv(g, start, w, Search({}, [], [Entry(start, 0)]))
    ensures Names([Entry(start, 0)]) == [start]
  {
  }

  method TraverseUpstream(g: Graph, start: Id, o: Options) returns (r: Traversal)
    ensures Promise(UpstreamSteps(g), start, o, r)
  {
    r := Traverse(UpstreamSteps(g), start, o);
  }

  method TraverseDownstream(g: Graph, start: Id, o: Options) returns (r: Traversal)
    ensures Promise(DownstreamSteps(g), start, o, r)
  {
    r := Traverse(DownstreamSteps(g), start, o);
  }

  // ---- the union of both directions over several seeds ----

  ghost function BothWays(g: Graph, seed: Id): set<Id> {
    ReachSet(UpstreamSteps(g), seed) * g.nodes.Keys + ReachSet(DownstreamSteps(g), seed) * g.nodes.Keys
  }

  ghost function BothWaysAll(g: Graph, seeds: seq<Id>): set<Id> {
    if seeds == [] then {} else BothWaysAll(g, seeds[..|seeds| - 1]) + BothWays(g, seeds[|seeds| - 1])
  }

  lemma {:induction false} BothWaysAllPrefix(g: Graph, seeds: seq<Id>, i: nat)
    requires i <= |seeds|
    ensures BothWaysAll(g, seeds[..i]) <= BothWaysAll(g, seeds)
  {
    if i < |seeds| {
      var n := |seeds| - 1;
      BothWaysAllPrefix(g, seeds[..n], i);
      assert seeds[..n][..i] == seeds[..i];
    } else {
      assert seeds[..i] == seeds;
    }
  }

  method AppendNew(allNodes: seq<Id>, up: seq<Id>, down: seq<Id>) returns (r: seq<Id>)
    requires NoDup(allNodes)
    ensures NoDup(r) && Elems(r) == Elems(allNodes) + (Elems(up) + Elems(down))
  {
    var ids := up + down;
    r := allNodes;
    for i := 0 to |ids|
      invariant NoDup(r)
      invariant forall x :: x in r <==> x in allNodes || x in ids[..i]
    {
      assert ids[..i + 1] == ids[..i] + [ids[i]];
      if ids[i] !in r {
        r := r + [ids[i]];
      }
    }
    assert ids[..|ids|] == ids;
  }

  lemma PromiseWithin(g: Adjacency, start: Id, o: Options, r: Traversal)
    requires Promise(g, start, o, r)
    ensures Elems(r.nodes) <= ReachSet(g, start) * g.Keys
  {
    forall x | x in r.nodes ensures x in ReachSet(g, start) {
      InReachSet(g, start, x);
    }
  }

  method TraverseBoth(g: Graph, seed: Id, o: Options) returns (up: Traversal, down: Traversal)
    ensures Promise(UpstreamSteps(g), seed, o, up) && Promise(DownstreamSteps(g), seed, o, down)
    ensures Elems(up.nodes) + Elems(down.nodes) <= BothWays(g, seed)
    ensures up.limit == None && down.limit == None ==> Elems(up.nodes) + Elems(down.nodes) == BothWays(g, seed)
  {
    up := TraverseUpstream(g, seed, o);
    down := TraverseDownstream(g, seed, o);
    PromiseWithin(UpstreamSteps(g), seed, o, up);
    PromiseWithin(DownstreamSteps(g), seed, o, down);
  }

  // The two traversals of one seed.
  datatype Part = Part(up: Traversal, down: Traversal) {
    function Limit(): Option<Limit> {
      if up.LimitReached() then up.limit else down.limit
    }
  }

  function PartsCost(parts: seq<Part>): int {
    if parts == [] then 0
    else PartsCost(parts[..|parts| - 1]) + parts[|parts| - 1].up.cost + parts[|parts| - 1].down.cost
  }

  ghost predicate PartOf(g: Graph, seed: Id, o: Options, p: Part) {
    Promise(UpstreamSteps(g), seed, o, p.up) && Promise(DownstreamSteps(g), seed, o, p.down)
  }

  predicate Listed(parts: seq<Part>, x: Id) {
    exists p :: p in parts && (x in p.up.nodes || x in p.down.nodes)
  }

  lemma ListedNext(parts: seq<Part>, p: Part, x: Id)
    ensures Listed(parts + [p], x) <==> Listed(parts, x) || x in p.up.nodes || x in p.down.nodes
  {
    assert forall q :: q in parts + [p] <==> q in parts || q == p;
  }

  // One part for each seed up to the first that hits a cap: the costs add up, and that cap is the one reported.
  ghost predicate Combined(g: Graph, seeds: seq<Id>, o: Options, parts: seq<Part>, r: Traversal) {
    && |parts| <= |seeds| && (forall i :: 0 <= i < |parts| ==> PartOf(g, seeds[i], o, parts[i]))
    && (forall i :: 0 <= i < |parts| - 1 ==> parts[i].Limit() == None)
    && r.cost == PartsCost(parts)
    && (forall x :: x in r.nodes <==> Listed(parts, x))
    && r.limit == (if parts == [] then None else parts[|parts| - 1].Limit())
    && (r.limit == None ==> |parts| == |seeds|)
  }

  lemma PartSame(g: Graph, seed: Id, same: Id, o: Options, p: Part, also: Part)
    requires PartOf(g, seed, o, p) && seed == same && p == also
    ensures PartOf(g, same, o, also)
  {
  }

  lemma CombineNext(g: Graph, seeds: seq<Id>, o: Options, parts: seq<Part>, before: Traversal, p: Part, r: Traversal)
    requires |parts| < |seeds| && Combined(g, seeds[..|parts|], o, parts, before) && before.limit == None
    requires PartOf(g, seeds[|parts|], o, p)
    requires Elems(r.nodes) == Elems(before.nodes) + (Elems(p.up.nodes) + Elems(p.down.nodes))
    requires r.cost == before.cost + p.up.cost + p.down.cost && r.limit == p.Limit()
    ensures Combined(g, seeds[..|parts| + 1], o, parts + [p], r)
    ensures r.limit != None ==> Combined(g, seeds, o, parts + [p], r)
  {
    var more := parts + [p];
    assert more[..|parts|] == parts;
    forall x ensures x in r.nodes <==> Listed(more, x) {
      ListedNext(parts, p, x);
      assert x in Elems(r.nodes) <==> x in Elems(before.nodes) || x in Elems(p.up.nodes) || x in Elems(p.down.nodes);
    }
    forall i | 0 <= i < |more| ensures PartOf(g, seeds[i], o, more[i]) {
      if i < |parts| {
        PartSame(g, seeds[..|parts|][i], seeds[i], o, parts[i], more[i]);
      } else {
        PartSame(g, seeds[|parts|], seeds[i], o, p, more[i]);
      }
    }
  }

  // Distinct nodes, each up- or downstream of some seed; all of them unless a cap was hit.
  method ComputeDependencyClosure(g: Graph, seeds: seq<Id>, o: Options) returns (r: Traversal)
    ensures NoDup(r.nodes) && Elems(r.nodes) <= BothWaysAll(g, seeds)
    ensures r.limit == None ==> Elems(r.nodes) == BothWaysAll(g, seeds)
    ensures exists parts :: Combined(g, seeds, o, parts, r)
  {
    var allNodes: seq<Id> := [];
    var totalCost := 0;
    ghost var parts: seq<Part> := [];
    for i := 0 to |seeds|
      invariant NoDup(allNodes) && Elems(allNodes) == BothWaysAll(g, seeds[..i])
      invariant |parts| == i && Combined(g, seeds[..i], o, parts, Traversal(allNodes, totalCost, None))
    {
      BothWaysAllPrefix(g, seeds, i + 1);
      assert seeds[..i + 1][..i] == seeds[..i];
      var upstream, downstream := TraverseBoth(g, seeds[i], o);
      ghost var before := Traversal(allNodes, totalCost, None);
      allNodes := AppendNew(allNodes, upstream.nodes, downstream.nodes);
      totalCost := totalCost + upstream.cost + downstream.cost;
      ghost var part := Part(upstream, downstream);
      CombineNext(g, seeds, o, parts, before, part, Traversal(allNodes, totalCost, part.Limit()));
      parts := parts + [part];
      if upstream.LimitReached() || downstream.LimitReached() {
        return Traversal(allNodes, totalCost, if upstream.LimitReached() then upstream.limit else downstream.limit);
      }
    }
    assert seeds[..|seeds|] == seeds;
    return Traversal(allNodes, totalCost, None);
  }
}
