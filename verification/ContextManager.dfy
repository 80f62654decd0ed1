// The context manager: an insertion-ordered registry of items, the operations that rewrite it in place,
// capacity-driven eviction, and what every run keeps. The clock is a parameter of every operation.
module ContextManagers {
  import opened Common
  import opened ContextLifecycle
  import opened MemoryLayers

  // ---- the registry: items in insertion order, one per id ----

  function Get(items: seq<Item>, id: Id): (r: Option<Item>)
    ensures r.Some? ==> r.value in items && r.value.id == id
    ensures r.None? <==> forall x :: x in items ==> x.id != id
  {
    if items == [] then None
    else if items[0].id == id then Some(items[0])
    else Get(items[1..], id)
  }

  // Setting a key that is present keeps its place.
  function Put(items: seq<Item>, item: Item): seq<Item> {
    if items == [] then [item]
    else if items[0].id == item.id then [item] + items[1..]
    else [items[0]] + Put(items[1..], item)
  }

  function Remove(items: seq<Item>, id: Id): seq<Item> {
    if items == [] then []
    else if items[0].id == id then items[1..]
    else [items[0]] + Remove(items[1..], id)
  }

  // The items with f applied to those whose id is in `done`.
  function Patched(items: seq<Item>, f: Item -> Item, done: set<Id>): (r: seq<Item>)
    ensures |r| == |items| && forall i :: 0 <= i < |r| ==> r[i] == if items[i].id in done then f(items[i]) else items[i]
  {
    seq(|items|, i requires 0 <= i < |items| => if items[i].id in done then f(items[i]) else items[i])
  }

  ghost predicate KeepsIds(f: Item -> Item) {
    forall x :: f(x).id == x.id
  }

  function Ids(items: seq<Item>): set<Id> {
    set x | x in items :: x.id
  }

  lemma {:induction false} PutAt(items: seq<Item>, item: Item, i: nat)
    requires DistinctIds(items) && i < |items| && items[i].id == item.id
    ensures Put(items, item) == items[i := item]
  {
    if i > 0 {
      PutAt(items[1..], item, i - 1);
    }
  }

  lemma {:induction false} PatchOne(items: seq<Item>, f: Item -> Item, done: set<Id>, x: Item)
    requires DistinctIds(items) && KeepsIds(f) && x in items && x.id !in done
    ensures Put(Patched(items, f, done), f(x)) == Patched(items, f, done + {x.id})
  {
    var i :| 0 <= i < |items| && items[i] == x;
    PatchedDistinct(items, f, done);
    PutAt(Patched(items, f, done), f(x), i);
    assert forall j :: 0 <= j < |items| && j != i ==> items[j].id != x.id;
  }

  lemma {:induction false} PatchedDistinct(items: seq<Item>, f: Item -> Item, done: set<Id>)
    requires DistinctIds(items) && KeepsIds(f)
    ensures DistinctIds(Patched(items, f, done))
  {
  }

  lemma {:induction false} GetPatched(items: seq<Item>, f: Item -> Item, done: set<Id>, id: Id)
    requires KeepsIds(f)
    ensures Get(Patched(items, f, done), id) ==
      if Get(items, id).None? then None
      else if id in done then Some(f(Get(items, id).value))
      else Get(items, id)
  {
    if items != [] {
      assert Patched(items, f, done)[1..] == Patched(items[1..], f, done);
      GetPatched(items[1..], f, done, id);
    }
  }

  lemma {:induction false} GetPut(items: seq<Item>, item: Item, id: Id)
    ensures Get(Put(items, item), id) == if id == item.id then Some(item) else Get(items, id)
  {
    if items != [] && items[0].id != item.id {
      GetPut(items[1..], item, id);
    }
  }

  lemma {:induction false} GetRemove(items: seq<Item>, gone: Id, id: Id)
    requires DistinctIds(items)
    ensures Get(Remove(items, gone), id) == if id == gone then None else Get(items, id)
  {
    if items != [] && items[0].id != gone { GetRemove(items[1..], gone, id); }
  }

  lemma {:induction false} PutDistinct(items: seq<Item>, item: Item)
    requires DistinctIds(items)
    ensures DistinctIds(Put(items, item))
    ensures forall x :: x in Put(items, item) ==> x == item || x in items
  {
    if items != [] {
      PutDistinct(items[1..], item);
      assert forall x :: x in items[1..] ==> x.id != items[0].id;
    }
  }

  lemma {:induction false} RemoveDistinct(items: seq<Item>, id: Id)
    requires DistinctIds(items)
    ensures DistinctIds(Remove(items, id)) && forall x :: x in Remove(items, id) ==> x in items
  {
    if items != [] {
      RemoveDistinct(items[1..], id);
      assert forall x :: x in items[1..] ==> x.id != items[0].id;
    }
  }

  // ---- registering ----

  datatype Source = Source(
    id: Id, layer: Option<Layer>, metaLayer: Option<Layer>, category: string, importance: Option<real>,
    timestamp: Option<int>, lifecycle: Option<State>, history: seq<Event>)

  function Prepare(source: Source, now: int): Item {
    Item(source.id,
      AssignLayer(source.layer, None, source.metaLayer, source.category),
      source.importance,
      if source.timestamp.Some? && source.timestamp.value != 0 then source.timestamp.value else now,
      if source.lifecycle.Some? then source.lifecycle.value else CREATED,
      source.history,
      now)
  }

  // ---- item rewrites ----

  predicate Evictable(item: Item) {
    CanTransition(item.lifecycle, COMPRESSED)
  }

  function Evicted(now: int): Item -> Item {
    (x: Item) => x.(lifecycle := COMPRESSED, layer := ARCHIVE, updatedAt := now,
            history := x.history + [Transitioned(x.lifecycle, COMPRESSED, now)])
  }

  function Swept(now: int): Item -> Item {
    (x: Item) => x.(lifecycle := STALE, updatedAt := now, history := x.history + [Transitioned(x.lifecycle, STALE, now)])
  }

  function Shelved(): Item -> Item {
    (x: Item) => x.(layer := ARCHIVE)
  }

  predicate ArchiveCandidate(item: Item) {
    item.lifecycle.COMPRESSED? || item.lifecycle.STALE? || item.lifecycle.INVALIDATED? || item.lifecycle.ARCHIVED?
  }

  function OverdueIds(items: seq<Item>, now: int): set<Id> {
    set x | x in items && Overdue(x, now) :: x.id
  }

  function CandidateIds(items: seq<Item>): set<Id> {
    set x | x in items && ArchiveCandidate(x) && !x.layer.ARCHIVE? :: x.id
  }

  function OverdueAt(now: int): Item -> bool {
    (x: Item) => Overdue(x, now)
  }

  function Shelvable(): Item -> bool {
    (x: Item) => ArchiveCandidate(x) && !x.layer.ARCHIVE?
  }

  // The items that meet a condition, in order, as they are stored again.
  function Rewritten(items: seq<Item>, f: Item -> Item, p: Item -> bool): (r: seq<Item>)
    ensures forall y :: y in r <==> exists x :: x in items && p(x) && f(x) == y
  {
    if items == [] then []
    else
      var n := |items| - 1;
      assert items == items[..n] + [items[n]];
      Rewritten(items[..n], f, p) + if p(items[n]) then [f(items[n])] else []
  }

  lemma RewrittenStep(items: seq<Item>, f: Item -> Item, p: Item -> bool, i: nat)
    requires i < |items|
    ensures Rewritten(items[..i + 1], f, p) == Rewritten(items[..i], f, p) + if p(items[i]) then [f(items[i])] else []
  {
    assert items[..i + 1][..i] == items[..i];
  }

  // How many of the evictions come before the first that cannot be compressed.
  function Leading(evictions: seq<Item>): (n: nat)
    ensures n <= |evictions|
    ensures forall i :: 0 <= i < n ==> Evictable(evictions[i])
    ensures n < |evictions| ==> !Evictable(evictions[n])
  {
    if evictions == [] || !Evictable(evictions[0]) then 0 else 1 + Leading(evictions[1..])
  }

  // Eviction stops with an error at the first item that cannot be compressed; earlier ones stay evicted.
  function AfterEviction(items: seq<Item>, now: int): seq<Item> {
    Patched(items, Evicted(now), Ids(Evictions(items)[..Leading(Evictions(items))]))
  }

  predicate EvictionSucceeds(items: seq<Item>) {
    Leading(Evictions(items)) == |Evictions(items)|
  }

  // ---- commands ----

  datatype Command =
    | Register(source: Source, now: int) | Unregister(id: Id) | Clear
    | TransitionItem(id: Id, next: State, now: int) | SweepStale(now: int)
    | SetLayer(id: Id, explicit: Option<Layer>) | EvictForCapacity(now: int) | PromoteArchive
    | Promote(id: Id, target: Layer, now: int) | Demote(id: Id, target: Layer, now: int)

  // A lookup that finds nothing, or an error, changes nothing.
  function Store(items: seq<Item>, id: Id, r: Option<Result<Item, Error>>): seq<Item> {
    if r.Some? && r.value.Ok? then Put(items, r.value.value) else items
  }

  function Attempt(items: seq<Item>, c: Command): Option<Result<Item, Error>>
    requires c.TransitionItem? || c.SetLayer? || c.Promote? || c.Demote?
  {
    var x := Get(items, c.id);
    if x.None? then None
    else
      Some(match c
        case TransitionItem(_, next, now) => Transition(x.value, next, now)
        case Promote(_, target, now) => ContextLifecycle.PromoteItem(x.value, target, now)
        case Demote(_, target, now) => ContextLifecycle.DemoteItem(x.value, target, now)
        case SetLayer(_, explicit) => Ok(x.value.(layer := AssignLayer(explicit, Some(x.value.layer), None, ""))))
  }

  function Apply(items: seq<Item>, c: Command): seq<Item> {
    match c
    case Register(source, now) => if source.id == "" then items else Put(items, Prepare(source, now))
    case Unregister(id) => Remove(items, id)
    case Clear => []
    case SweepStale(now) => Patched(items, Swept(now), OverdueIds(items, now))
    case EvictForCapacity(now) => AfterEviction(items, now)
    case PromoteArchive => Patched(items, Shelved(), CandidateIds(items))
    case _ => Store(items, c.id, Attempt(items, c))
  }

  function Run(items: seq<Item>, cs: seq<Command>): seq<Item>
    decreases |cs|
  {
    if cs == [] then items else Run(Apply(items, cs[0]), cs[1..])
  }

  // ---- what every command keeps ----

  lemma {:induction false} RewritesKeepIds(now: int)
    ensures KeepsIds(Evicted(now)) && KeepsIds(Swept(now)) && KeepsIds(Shelved())
  {
  }

  lemma {:induction false} ApplyDistinct(items: seq<Item>, c: Command)
    requires DistinctIds(items)
    ensures DistinctIds(Apply(items, c))
  {
    match c {
      case Register(source, now) => PutDistinct(items, Prepare(source, now));
      case Unregister(id) => RemoveDistinct(items, id);
      case Clear =>
      case SweepStale(now) =>
        RewritesKeepIds(now);
        PatchedDistinct(items, Swept(now), OverdueIds(items, now));
      case EvictForCapacity(now) =>
        RewritesKeepIds(now);
        PatchedDistinct(items, Evicted(now), Ids(Evictions(items)[..Leading(Evictions(items))]));
      case PromoteArchive =>
        RewritesKeepIds(0);
        PatchedDistinct(items, Shelved(), CandidateIds(items));
      case _ =>
        var r := Attempt(items, c);
        if r.Some? && r.value.Ok? { PutDistinct(items, r.value.value); }
    }
  }

  // The commands that may replace or drop the item outright.
  predicate Replaces(c: Command, id: Id) {
    (c.Register? && c.source.id == id != "") || (c.Unregister? && c.id == id) || c.Clear?
  }

  lemma {:induction false} EvictedSteps(x: Item, now: int)
    requires Evictable(x)
    ensures OneStep(x, Evicted(now)(x))
  {
  }

  lemma {:induction false} SweptSteps(x: Item, now: int)
    requires Overdue(x, now)
    ensures OneStep(x, Swept(now)(x))
  {
    StepsAppend(x.history, Transitioned(x.lifecycle, STALE, now));
  }

  lemma {:induction false} AttemptSteps(items: seq<Item>, c: Command, x: Item)
    requires c.TransitionItem? || c.SetLayer? || c.Promote? || c.Demote?
    requires Get(items, c.id) == Some(x)
    ensures Attempt(items, c).Some?
    ensures Attempt(items, c).value.Ok? ==> OneStep(x, Attempt(items, c).value.value)
  {
    match c {
      case TransitionItem(_, next, now) => if Transition(x, next, now).Ok? { TransitionSteps(x, next, now); }
      case Promote(_, target, now) => MoveSteps(x, target, now);
      case Demote(_, target, now) => MoveSteps(x, target, now);
      case SetLayer(_, _) =>
    }
  }

  lemma {:induction false} EvictionSteps(items: seq<Item>, now: int, id: Id, x: Item)
    requires DistinctIds(items) && Get(items, id) == Some(x)
    ensures Get(AfterEviction(items, now), id).Some? && OneStep(x, Get(AfterEviction(items, now), id).value)
  {
    var ev := Evictions(items);
    var done := Ids(ev[..Leading(ev)]);
    RewritesKeepIds(now);
    GetPatched(items, Evicted(now), done, id);
    EvictionsFacts(items);
    if id in done {
      var y :| y in ev[..Leading(ev)] && y.id == id;
      assert y in items;
      SameById(items, x, y);
      EvictedSteps(x, now);
    }
  }

  lemma {:induction false} SameById(items: seq<Item>, x: Item, y: Item)
    requires DistinctIds(items) && x in items && y in items && x.id == y.id
    ensures x == y
  {
  }

  // Whatever the command, an item it does not replace takes at most one step of the transition table, and its
  // recorded history stays a path of the table that ends at its lifecycle.
  lemma {:induction false} ItemSteps(items: seq<Item>, c: Command, id: Id)
    requires DistinctIds(items) && Get(items, id).Some? && !Replaces(c, id)
    ensures Get(Apply(items, c), id).Some? && OneStep(Get(items, id).value, Get(Apply(items, c), id).value)
  {
    var x := Get(items, id).value;
    match c {
      case Register(source, now) => GetPut(items, Prepare(source, now), id);
      case Unregister(gone) => GetRemove(items, gone, id);
      case Clear =>
      case SweepStale(now) =>
        RewritesKeepIds(now);
        GetPatched(items, Swept(now), OverdueIds(items, now), id);
        if id in OverdueIds(items, now) {
          var y :| y in items && Overdue(y, now) && y.id == id;
          SameById(items, x, y);
          SweptSteps(x, now);
        }
      case EvictForCapacity(now) => EvictionSteps(items, now, id, x);
      case PromoteArchive =>
        RewritesKeepIds(0);
        GetPatched(items, Shelved(), CandidateIds(items), id);
      case _ =>
        var r := Attempt(items, c);
        if Get(items, c.id).Some? { AttemptSteps(items, c, Get(items, c.id).value); }
        if r.Some? && r.value.Ok? { GetPut(items, r.value.value, id); }
    }
  }

  // An invalidated or archived lifecycle is the same, and a consistent history is still consistent.
  ghost predicate Kept(x: Item, y: Item) {
    && (x.lifecycle == INVALIDATED || x.lifecycle == ARCHIVED ==> y.lifecycle == x.lifecycle)
    && (Consistent(x) ==> Consistent(y))
  }

  lemma {:induction false} StepKeeps(items: seq<Item>, c: Command, id: Id)
    requires DistinctIds(items) && Get(items, id).Some? && !Replaces(c, id)
    ensures Get(Apply(items, c), id).Some? && Kept(Get(items, id).value, Get(Apply(items, c), id).value)
  {
    ItemSteps(items, c, id);
    OneStepKept(Get(items, id).value, Get(Apply(items, c), id).value);
  }

  lemma {:induction false} OneStepKept(x: Item, y: Item)
    requires OneStep(x, y)
    ensures Kept(x, y)
  {
  }

  // Over any run that does not replace it, an invalidated or archived item keeps that lifecycle, and a
  // consistent history stays consistent.
  lemma {:induction false} RunKeeps(items: seq<Item>, cs: seq<Command>, id: Id)
    requires DistinctIds(items) && Get(items, id).Some? && forall c :: c in cs ==> !Replaces(c, id)
    ensures Get(Run(items, cs), id).Some? && Kept(Get(items, id).value, Get(Run(items, cs), id).value)
    decreases |cs|
  {
    if cs != [] {
      assert !Replaces(cs[0], id);
      StepKeeps(items, cs[0], id);
      ApplyDistinct(items, cs[0]);
      RunKeeps(Apply(items, cs[0]), cs[1..], id);
    }
  }

  ghost predicate AllConsistent(items: seq<Item>) {
    forall x :: x in items ==> Consistent(x)
  }

  // A source that brings a history brings one that ends at the lifecycle it is registered with.
  ghost predicate ConsistentSources(cs: seq<Command>) {
    forall c :: c in cs && c.Register? ==> Consistent(Prepare(c.source, c.now))
  }

  lemma {:induction false} ApplyConsistent(items: seq<Item>, c: Command)
    requires DistinctIds(items) && AllConsistent(items)
    requires c.Register? ==> Consistent(Prepare(c.source, c.now))
    ensures AllConsistent(Apply(items, c))
  {
    ApplyDistinct(items, c);
    forall y | y in Apply(items, c) ensures Consistent(y) {
      FoundById(Apply(items, c), y);
      ApplyOrigin(items, c, y);
      if Get(items, y.id).Some? && !Replaces(c, y.id) {
        ItemSteps(items, c, y.id);
      }
    }
  }

  lemma {:induction false} FoundById(items: seq<Item>, y: Item)
    requires DistinctIds(items) && y in items
    ensures Get(items, y.id) == Some(y)
  {
  }

  // Every item after a command was there before it, or is the one being registered.
  lemma {:induction false} ApplyOrigin(items: seq<Item>, c: Command, y: Item)
    requires DistinctIds(items) && y in Apply(items, c)
    ensures (c.Register? && y == Prepare(c.source, c.now)) || (Get(items, y.id).Some? && !Replaces(c, y.id))
  {
    ApplyDistinct(items, c);
    FoundById(Apply(items, c), y);
    match c {
      case Register(source, now) => if source.id != "" { GetPut(items, Prepare(source, now), y.id); }
      case Unregister(gone) => GetRemove(items, gone, y.id);
      case Clear =>
      case SweepStale(now) =>
        RewritesKeepIds(now);
        GetPatched(items, Swept(now), OverdueIds(items, now), y.id);
      case EvictForCapacity(now) =>
        RewritesKeepIds(now);
        GetPatched(items, Evicted(now), Ids(Evictions(items)[..Leading(Evictions(items))]), y.id);
      case PromoteArchive =>
        RewritesKeepIds(0);
        GetPatched(items, Shelved(), CandidateIds(items), y.id);
      case _ =>
        var r := Attempt(items, c);
        if Get(items, c.id).Some? { AttemptSteps(items, c, Get(items, c.id).value); }
        if r.Some? && r.value.Ok? { GetPut(items, r.value.value, y.id); }
    }
  }

  // Over every run, each item's history is a path of the transition table ending at its lifecycle.
  lemma {:induction false} EveryRunConsistent(items: seq<Item>, cs: seq<Command>)
    requires DistinctIds(items) && AllConsistent(items) && ConsistentSources(cs)
    ensures DistinctIds(Run(items, cs)) && AllConsistent(Run(items, cs))
    decreases |cs|
  {
    if cs != [] {
      ApplyConsistent(items, cs[0]);
      ApplyDistinct(items, cs[0]);
      EveryRunConsistent(Apply(items, cs[0]), cs[1..]);
    }
  }

  // ---- what an eviction achieves ----

  function LesserOf(a: nat, b: nat): nat {
    if a < b then a else b
  }

  // Eviction succeeds exactly when every item it chooses is ACTIVE or STALE.
  lemma {:induction false} EvictionSucceedsExactly(items: seq<Item>)
    requires DistinctIds(items)
    ensures EvictionSucceeds(items) <==>
      forall x :: x in Evictions(items) ==> x.lifecycle.ACTIVE? || x.lifecycle.STALE?
  {
  }

  lemma {:induction false} EvictionDone(items: seq<Item>, x: Item)
    requires DistinctIds(items) && EvictionSucceeds(items) && x in items
    ensures x.id in Ids(Evictions(items)[..Leading(Evictions(items))]) <==> x in Evictions(items)
  {
    var ev := Evictions(items);
    assert ev[..|ev|] == ev;
    EvictionsFacts(items);
    if x.id in Ids(ev) {
      var y :| y in ev && y.id == x.id;
      SameById(items, x, y);
    }
  }

  // A successful eviction keeps every id in its place; the chosen items are compressed and archived, the
  // others are untouched.
  lemma {:induction false} EvictionItems(items: seq<Item>, now: int)
    requires DistinctIds(items) && EvictionSucceeds(items)
    ensures var after := AfterEviction(items, now);
      && |after| == |items|
      && forall i :: 0 <= i < |items| ==>
        after[i] == if items[i] in Evictions(items) then Evicted(now)(items[i]) else items[i]
  {
    forall i | 0 <= i < |items|
      ensures items[i].id in Ids(Evictions(items)[..Leading(Evictions(items))]) <==> items[i] in Evictions(items)
    {
      EvictionDone(items, items[i]);
    }
  }

  lemma {:induction false} EvictionLayer(items: seq<Item>, now: int, layer: Layer)
    requires DistinctIds(items) && EvictionSucceeds(items) && !layer.ARCHIVE?
    ensures InLayer(AfterEviction(items, now), layer) == InLayer(items, layer) - Elems(LayerEvictions(items, layer))
  {
    var after := AfterEviction(items, now);
    EvictionItems(items, now);
    EvictionsFacts(items);
    LayerEvictionsFacts(items, layer);
    LayerOf(items, layer);
    forall y ensures y in InLayer(after, layer) <==> y in InLayer(items, layer) && y !in LayerEvictions(items, layer) {
      if y in InLayer(after, layer) {
        var i :| 0 <= i < |after| && after[i] == y;
      }
      if y in InLayer(items, layer) && y !in LayerEvictions(items, layer) {
        var i :| 0 <= i < |items| && items[i] == y;
        assert after[i] == y;
      }
    }
  }

  // A successful eviction leaves each working layer at the lesser of its size and its capacity.
  lemma {:induction false} EvictionSizes(items: seq<Item>, now: int, layer: Layer)
    requires DistinctIds(items) && EvictionSucceeds(items) && !layer.ARCHIVE?
    ensures |Bucket(AfterEviction(items, now), layer)| == LesserOf(|Bucket(items, layer)|, Capacity(layer))
  {
    var after := AfterEviction(items, now);
    var gone := LayerEvictions(items, layer);
    ApplyDistinct(items, EvictForCapacity(now));
    assert Apply(items, EvictForCapacity(now)) == after;
    BucketSize(items, layer);
    BucketSize(after, layer);
    EvictionLayer(items, now, layer);
    LayerEvictionsFacts(items, layer);
    NoDupCard(gone);
    RemovedCard(InLayer(items, layer), Elems(gone));
  }

  lemma {:induction false} RemovedCard(a: set<Item>, b: set<Item>)
    requires b <= a
    ensures |a - b| == |a| - |b|
  {
  }

  // An eviction right after a successful one chooses nothing and changes nothing.
  lemma {:induction false} EvictionRepeats(items: seq<Item>, now: int, later: int)
    requires DistinctIds(items) && EvictionSucceeds(items)
    ensures var after := AfterEviction(items, now);
      Evictions(after) == [] && EvictionSucceeds(after) && AfterEviction(after, later) == after
  {
    EvictionSizes(items, now, N0);
    EvictionSizes(items, now, N1);
    EvictionSizes(items, now, N2);
    EvictionSizes(items, now, N3);
  }

  // No item chosen in a layer is more important, or as important and newer, than one that stays in it.
  lemma {:induction false} EvictionPriority(items: seq<Item>, x: Item, y: Item)
    requires DistinctIds(items)
    requires x in Evictions(items) && y in items && y !in Evictions(items) && x.layer == y.layer
    ensures Importance(x) < Importance(y) || (Importance(x) == Importance(y) && x.timestamp <= y.timestamp)
  {
    ChosenInLayer(items, x);
    ChosenInLayer(items, y);
    PriorityInLayer(items, x.layer, x, y);
  }

  lemma {:induction false} ChosenInLayer(items: seq<Item>, x: Item)
    requires DistinctIds(items)
    ensures x in Evictions(items) <==> !x.layer.ARCHIVE? && x in LayerEvictions(items, x.layer)
  {
    EvictionsFacts(items);
  }

  lemma {:induction false} PriorityInLayer(items: seq<Item>, layer: Layer, x: Item, y: Item)
    requires DistinctIds(items) && !layer.ARCHIVE?
    requires x in LayerEvictions(items, layer) && y in items && y.layer == layer && y !in LayerEvictions(items, layer)
    ensures EvictBefore(x, y)
  {
    LayerEvictionsFacts(items, layer);
    assert y in InLayer(items, layer);
  }

  // A layer over its capacity whose items were all just registered makes eviction fail: CREATED items cannot
  // be compressed.
  lemma {:induction false} FreshSurplusFails(items: seq<Item>, layer: Layer)
    requires DistinctIds(items) && !layer.ARCHIVE? && |Bucket(items, layer)| > Capacity(layer)
    requires forall x :: x in items && x.layer == layer ==> x.lifecycle.CREATED?
    ensures !EvictionSucceeds(items)
  {
    EvictionSucceedsExactly(items);
    EvictionsFacts(items);
    LayerEvictionsFacts(items, layer);
    LayerOf(items, layer);
    var x := LayerEvictions(items, layer)[0];
    assert x in LayerEvictions(items, layer);
    assert x in Evictions(items);
  }

  // Sweeping twice at the same time changes nothing more.
  lemma {:induction false} SweepSettles(items: seq<Item>, now: int)
    requires DistinctIds(items)
    ensures OverdueIds(Apply(items, SweepStale(now)), now) == {}
  {
  }

  // After shelving, only usable items are left in the working layers.
  lemma {:induction false} ShelvedUsable(items: seq<Item>, y: Item)
    requires DistinctIds(items) && y in Apply(items, PromoteArchive) && !y.layer.ARCHIVE?
    ensures !ArchiveCandidate(y)
  {
  }

  // ---- the commands item by item, spelled out ----

  // A sweep marks as stale, at its time, exactly the items that are overdue.
  lemma {:induction false} SweepMeans(items: seq<Item>, now: int, i: nat)
    requires DistinctIds(items) && i < |items|
    ensures var x, y := items[i], Apply(items, SweepStale(now))[i];
      && |Apply(items, SweepStale(now))| == |items|
      && (Overdue(x, now) ==>
            && y.lifecycle == STALE && y.updatedAt == now && y.history == x.history + [Transitioned(x.lifecycle, STALE, now)]
            && y.id == x.id && y.layer == x.layer && y.importance == x.importance && y.timestamp == x.timestamp)
      && (!Overdue(x, now) ==> y == x)
  {
    if items[i].id in OverdueIds(items, now) {
      var z :| z in items && Overdue(z, now) && z.id == items[i].id;
      SameById(items, items[i], z);
    }
  }

  // Archiving moves exactly the compressed, stale, invalidated and archived items, and changes only their layer.
  lemma {:induction false} ArchiveMeans(items: seq<Item>, i: nat)
    requires DistinctIds(items) && i < |items|
    ensures var x, y := items[i], Apply(items, PromoteArchive)[i];
      && |Apply(items, PromoteArchive)| == |items|
      && y.layer == (if x.lifecycle in {COMPRESSED, STALE, INVALIDATED, ARCHIVED} then ARCHIVE else x.layer)
      && y == x.(layer := y.layer)
  {
    if items[i].id in CandidateIds(items) {
      var z :| z in items && ArchiveCandidate(z) && !z.layer.ARCHIVE? && z.id == items[i].id;
      SameById(items, items[i], z);
    }
  }

  // A successful eviction compresses and archives the chosen items, at its time, and leaves all others alone.
  lemma {:induction false} EvictionMeans(items: seq<Item>, now: int, i: nat)
    requires DistinctIds(items) && EvictionSucceeds(items) && i < |items|
    ensures var x, y := items[i], Apply(items, EvictForCapacity(now))[i];
      && |Apply(items, EvictForCapacity(now))| == |items|
      && (x in Evictions(items) ==>
            && y.lifecycle == COMPRESSED && y.layer == ARCHIVE && y.updatedAt == now
            && y.history == x.history + [Transitioned(x.lifecycle, COMPRESSED, now)]
            && y.id == x.id && y.importance == x.importance && y.timestamp == x.timestamp)
      && (x !in Evictions(items) ==> y == x)
  {
    EvictionItems(items, now);
  }

  // What registering stores: the layer of LayerAssigned, the time of registration unless a non-zero one is given, and
  // CREATED unless a lifecycle is given.
  lemma {:induction false} RegisterMeans(items: seq<Item>, source: Source, now: int)
    requires source.id != "" && DistinctIds(items)
    ensures var x := Get(Apply(items, Command.Register(source, now)), source.id);
      && x.Some? && x.value.id == source.id
      && x.value.layer == AssignLayer(source.layer, None, source.metaLayer, source.category)
      && x.value.importance == source.importance && x.value.history == source.history && x.value.updatedAt == now
      && (source.timestamp.None? || source.timestamp == Some(0) ==> x.value.timestamp == now)
      && (source.timestamp.Some? && source.timestamp != Some(0) ==> Some(x.value.timestamp) == source.timestamp)
      && (source.lifecycle.None? ==> x.value.lifecycle == CREATED)
      && (source.lifecycle.Some? ==> Some(x.value.lifecycle) == source.lifecycle)
  {
    GetPut(items, Prepare(source, now), source.id);
  }

  // Setting a layer moves the item to the layer asked for, or leaves it where it is, and changes nothing else of it.
  lemma {:induction false} SetLayerMeans(items: seq<Item>, id: Id, explicit: Option<Layer>)
    ensures Get(items, id).None? ==> Apply(items, Command.SetLayer(id, explicit)) == items
    ensures Get(items, id).Some? ==>
      var x := Get(items, id).value;
      Apply(items, Command.SetLayer(id, explicit))
        == Put(items, x.(layer := if explicit.Some? then explicit.value else x.layer))
  {
    assert Apply(items, Command.SetLayer(id, explicit))
        == Store(items, id, Attempt(items, Command.SetLayer(id, explicit)));
  }

  // ---- the manager object ----

  class ContextManager {
    var sources: seq<Item>

    ghost predicate Valid()
      reads this
    {
      DistinctIds(sources)
    }

    constructor ()
      ensures Valid() && sources == []
    {
      sources := [];
    }

    method Register(source: Source, now: int) returns (r: Option<Item>)
      requires Valid()
      modifies this
      ensures Valid() && sources == Apply(old(sources), Command.Register(source, now))
      ensures r == if source.id == "" then None else Some(Prepare(source, now))
    {
      ApplyDistinct(sources, Command.Register(source, now));
      if source.id == "" {
        return None;
      }
      var item := Prepare(source, now);
      sources := Put(sources, item);
      r := Some(item);
    }

    method Unregister(id: Id) returns (found: bool)
      requires Valid()
      modifies this
      ensures Valid() && sources == Apply(old(sources), Command.Unregister(id))
      ensures found <==> Get(old(sources), id).Some?
    {
      ApplyDistinct(sources, Command.Unregister(id));
      found := Get(sources, id).Some?;
      sources := Remove(sources, id);
    }

    method TransitionItem(id: Id, next: State, now: int) returns (r: Option<Result<Item, Error>>)
      requires Valid()
      modifies this
      ensures Valid() && sources == Apply(old(sources), Command.TransitionItem(id, next, now))
      ensures r == Attempt(old(sources), Command.TransitionItem(id, next, now))
    {
      ApplyDistinct(sources, Command.TransitionItem(id, next, now));
      var item := Get(sources, id);
      if item.None? {
        return None;
      }
      var updated := Transition(item.value, next, now);
      if updated.Ok? {
        sources := Put(sources, updated.value);
      }
      r := Some(updated);
    }

    method PromoteItem(id: Id, target: Layer, now: int) returns (r: Option<Result<Item, Error>>)
      requires Valid()
      modifies this
      ensures Valid() && sources == Apply(old(sources), Promote(id, target, now))
      ensures r == Attempt(old(sources), Promote(id, target, now))
    {
      ApplyDistinct(sources, Promote(id, target, now));
      var item := Get(sources, id);
      if item.None? {
        return None;
      }
      var result := ContextLifecycle.PromoteItem(item.value, target, now);
      if result.Ok? {
        sources := Put(sources, result.value);
      }
      r := Some(result);
    }

    method DemoteItem(id: Id, target: Layer, now: int) returns (r: Option<Result<Item, Error>>)
      requires Valid()
      modifies this
      ensures Valid() && sources == Apply(old(sources), Demote(id, target, now))
      ensures r == Attempt(old(sources), Demote(id, target, now))
    {
      ApplyDistinct(sources, Demote(id, target, now));
      var item := Get(sources, id);
      if item.None? {
        return None;
      }
      var result := ContextLifecycle.DemoteItem(item.value, target, now);
      if result.Ok? {
        sources := Put(sources, result.value);
      }
      r := Some(result);
    }

    method SetLayer(id: Id, explicit: Option<Layer>) returns (r: Option<Item>)
      requires Valid()
      modifies this
      ensures Valid() && sources == Apply(old(sources), Command.SetLayer(id, explicit))
      ensures r.Some? <==> Get(old(sources), id).Some?
      ensures r.Some? ==> r == Get(sources, id)
    {
      ApplyDistinct(sources, Command.SetLayer(id, explicit));
      SetLayerMeans(sources, id, explicit);
      var item := Get(sources, id);
      if item.None? {
        return None;
      }
      var updated := item.value.(layer := AssignLayer(explicit, Some(item.value.layer), None, ""));
      GetPut(sources, updated, id);
      sources := Put(sources, updated);
      r := Some(updated);
    }

    method SweepStale(now: int) returns (transitioned: seq<Item>)
      requires Valid()
      modifies this
      ensures Valid() && sources == Apply(old(sources), Command.SweepStale(now))
      ensures transitioned == Rewritten(old(sources), Swept(now), OverdueAt(now))
    {
      ApplyDistinct(sources, Command.SweepStale(now));
      transitioned := SweepEach(now);
    }

    // Every overdue item goes stale; none of these transitions can fail.
    method SweepEach(now: int) returns (transitioned: seq<Item>)
      requires Valid()
      modifies this
      ensures sources == Patched(old(sources), Swept(now), OverdueIds(old(sources), now))
      ensures transitioned == Rewritten(old(sources), Swept(now), OverdueAt(now))
    {
      var items := sources;
      ghost var done: set<Id> := {};
      assert Patched(items, Swept(now), {}) == items;
      transitioned := [];
      for i := 0 to |items|
        invariant done == OverdueIds(items[..i], now)
        invariant sources == Patched(items, Swept(now), done)
        invariant transitioned == Rewritten(items[..i], Swept(now), OverdueAt(now))
      {
        OverdueStep(items, now, i);
        RewrittenStep(items, Swept(now), OverdueAt(now), i);
        var next := StalenessCheck(items[i], now);
        if next.STALE? && !items[i].lifecycle.STALE? {
          SweepStep(items, now, i, done);
          var updated := Transition(items[i], STALE, now).value;
          sources := Put(sources, updated);
          transitioned := transitioned + [updated];
          done := done + {items[i].id};
        }
      }
      assert items[..|items|] == items;
    }

    method EvictForCapacity(now: int) returns (r: Result<seq<Item>, Error>)
      requires Valid()
      modifies this
      ensures Valid() && sources == Apply(old(sources), Command.EvictForCapacity(now))
      ensures r.Ok? <==> EvictionSucceeds(old(sources))
      ensures r.Ok? ==> r.value == Evictions(old(sources))
    {
      AfterEvictionIs(sources, now);
      var evictions := SelectEvictions(sources);
      r := EvictEach(evictions, now);
    }

    // The chosen items are compressed and archived one by one; the first that cannot be compressed stops the
    // eviction with an error and leaves the earlier ones evicted.
    method EvictEach(evictions: seq<Item>, now: int) returns (r: Result<seq<Item>, Error>)
      requires Valid() && NoDup(evictions) && forall x :: x in evictions ==> x in sources
      modifies this
      ensures sources == Patched(old(sources), Evicted(now), Ids(evictions[..Leading(evictions)]))
      ensures r.Ok? <==> Leading(evictions) == |evictions|
      ensures r.Ok? ==> r.value == evictions
    {
      ghost var items := sources;
      assert evictions[..0] == [] && Ids(evictions[..0]) == {};
      assert Patched(items, Evicted(now), {}) == items;
      for i := 0 to |evictions|
        invariant i <= Leading(evictions)
        invariant sources == Patched(items, Evicted(now), Ids(evictions[..i]))
      {
        var updated := Transition(evictions[i], COMPRESSED, now);
        if updated.Err? {
          return Err(updated.error);
        }
        EvictStep(items, evictions, now, i);
        sources := Put(sources, updated.value.(layer := ARCHIVE));
      }
      assert evictions[..|evictions|] == evictions;
      r := Ok(evictions);
    }

    method PromoteArchive() returns (updated: seq<Item>)
      requires Valid()
      modifies this
      ensures Valid() && sources == Apply(old(sources), Command.PromoteArchive)
      ensures updated == Rewritten(old(sources), Shelved(), Shelvable())
    {
      ApplyDistinct(sources, Command.PromoteArchive);
      RewritesKeepIds(0);
      var items := sources;
      ghost var done: set<Id> := {};
      assert Patched(items, Shelved(), {}) == items;
      updated := [];
      for i := 0 to |items|
        invariant done == CandidateIds(items[..i])
        invariant sources == Patched(items, Shelved(), done)
        invariant updated == Rewritten(items[..i], Shelved(), Shelvable())
      {
        CandidateStep(items, i);
        RewrittenStep(items, Shelved(), Shelvable(), i);
        if ArchiveCandidate(items[i]) && !items[i].layer.ARCHIVE? {
          PatchOne(items, Shelved(), done, items[i]);
          var next := items[i].(layer := ARCHIVE);
          sources := Put(sources, next);
          updated := updated + [next];
          done := done + {items[i].id};
        }
      }
      assert items[..|items|] == items;
    }
  }

  lemma {:induction false} AfterEvictionIs(items: seq<Item>, now: int)
    requires DistinctIds(items)
    ensures NoDup(Evictions(items)) && (forall x :: x in Evictions(items) ==> x in items)
    ensures DistinctIds(AfterEviction(items, now))
    ensures Apply(items, EvictForCapacity(now)) == AfterEviction(items, now)
  {
    EvictionsFacts(items);
    ApplyDistinct(items, EvictForCapacity(now));
  }

  lemma {:induction false} SweepStep(items: seq<Item>, now: int, i: nat, done: set<Id>)
    requires DistinctIds(items) && i < |items| && items[i].id !in done && Overdue(items[i], now)
    ensures Transition(items[i], STALE, now) == Ok(Swept(now)(items[i]))
    ensures Put(Patched(items, Swept(now), done), Swept(now)(items[i])) ==
      Patched(items, Swept(now), done + {items[i].id})
  {
    OverdueCanGoStale(items[i], now);
    RewritesKeepIds(now);
    PatchOne(items, Swept(now), done, items[i]);
  }

  lemma {:induction false} OverdueStep(items: seq<Item>, now: int, i: nat)
    requires DistinctIds(items) && i < |items|
    ensures items[i].id !in OverdueIds(items[..i], now)
    ensures Overdue(items[i], now) <==> StalenessCheck(items[i], now).STALE? && !items[i].lifecycle.STALE?
    ensures Overdue(items[i], now) ==> OverdueIds(items[..i + 1], now) == OverdueIds(items[..i], now) + {items[i].id}
    ensures !Overdue(items[i], now) ==> OverdueIds(items[..i + 1], now) == OverdueIds(items[..i], now)
  {
    assert items[..i + 1] == items[..i] + [items[i]];
    forall x | x in items[..i] ensures x.id != items[i].id {
      var j :| 0 <= j < i && items[..i][j] == x;
      assert items[j] == x;
    }
  }

  lemma {:induction false} CandidateStep(items: seq<Item>, i: nat)
    requires DistinctIds(items) && i < |items|
    ensures items[i].id !in CandidateIds(items[..i])
    ensures var chosen := ArchiveCandidate(items[i]) && !items[i].layer.ARCHIVE?;
      && (chosen ==> CandidateIds(items[..i + 1]) == CandidateIds(items[..i]) + {items[i].id})
      && (!chosen ==> CandidateIds(items[..i + 1]) == CandidateIds(items[..i]))
  {
    assert items[..i + 1] == items[..i] + [items[i]];
    forall x | x in items[..i] ensures x.id != items[i].id {
      var j :| 0 <= j < i && items[..i][j] == x;
      assert items[j] == x;
    }
  }

  lemma {:induction false} ChosenOnce(items: seq<Item>, chosen: seq<Item>, i: nat)
    requires DistinctIds(items) && NoDup(chosen) && i < |chosen| && forall x :: x in chosen ==> x in items
    ensures chosen[i].id !in Ids(chosen[..i])
    ensures Ids(chosen[..i + 1]) == Ids(chosen[..i]) + {chosen[i].id}
  {
    assert chosen[..i + 1] == chosen[..i] + [chosen[i]];
    forall j | 0 <= j < i ensures chosen[j].id != chosen[i].id {
      assert chosen[j] in chosen && chosen[i] in chosen;
      if chosen[j].id == chosen[i].id { SameById(items, chosen[j], chosen[i]); }
    }
    forall y | y in chosen[..i] ensures y.id != chosen[i].id {
      var j :| 0 <= j < i && chosen[..i][j] == y;
    }
  }

  lemma {:induction false} EvictStep(items: seq<Item>, chosen: seq<Item>, now: int, i: nat)
    requires DistinctIds(items) && NoDup(chosen) && i < |chosen| && forall x :: x in chosen ==> x in items
    ensures Put(Patched(items, Evicted(now), Ids(chosen[..i])), Evicted(now)(chosen[i])) ==
      Patched(items, Evicted(now), Ids(chosen[..i + 1]))
  {
    RewritesKeepIds(now);
    ChosenOnce(items, chosen, i);
    assert chosen[i] in chosen;
    PatchOne(items, Evicted(now), Ids(chosen[..i]), chosen[i]);
  }
}
