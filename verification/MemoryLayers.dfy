// Which items leave the working layers when a layer is over its capacity.
module MemoryLayers {
  import opened Common
  import opened Ordering
  import opened ContextLifecycle


  // Capacity of the working layers; the archive has none.
  function Capacity(layer: Layer): nat
    requires !layer.ARCHIVE?
  {
    match layer case N0 => 16 case N1 => 64 case N2 => 256 case N3 => 128
  }

  // explicit layer, then the item's own, then its metadata's, then its category's default, then N3
  function AssignLayer(explicit: Option<Layer>, own: Option<Layer>, meta: Option<Layer>, category: string): Layer {
    if explicit.Some? then explicit.value
    else if own.Some? then own.value
    else if meta.Some? then meta.value
    else if category == "REQUIREMENT" || category == "DECISION" then N0
    else if category == "FACT" then N1
    else if category == "OBSERVATION" || category == "EVIDENCE" || category == "RESULT" || category == "ERROR" then N2
    else N3
  }

  ghost predicate DistinctIds(items: seq<Item>) {
    forall i, j :: 0 <= i < j < |items| ==> items[i].id != items[j].id
  }

  function Bucket(items: seq<Item>, layer: Layer): seq<Item> {
    if items == [] then []
    else (if items[0].layer == layer then [items[0]] else []) + Bucket(items[1..], layer)
  }

  function Importance(item: Item): real {
    if item.importance.Some? then item.importance.value else 0.5
  }

  // Least important first, then oldest.
  predicate EvictBefore(a: Item, b: Item) {
    Importance(a) < Importance(b) || (Importance(a) == Importance(b) && a.timestamp <= b.timestamp)
  }

  function LayerEvictions(items: seq<Item>, layer: Layer): seq<Item>
    requires !layer.ARCHIVE?
  {
    OverCapacity(Bucket(items, layer), Capacity(layer))
  }

  function Evictions(items: seq<Item>): seq<Item> {
    LayerEvictions(items, N0) + LayerEvictions(items, N1) + LayerEvictions(items, N2) + LayerEvictions(items, N3)
  }

  // ---- buckets ----

  lemma {:induction false} BucketMembers(items: seq<Item>, layer: Layer)
    ensures forall x :: x in Bucket(items, layer) <==> x in items && x.layer == layer
  {
    if items != [] {
      BucketMembers(items[1..], layer);
      assert forall x :: x in items <==> x == items[0] || x in items[1..];
    }
  }

  lemma {:induction false} BucketDistinct(items: seq<Item>, layer: Layer)
    requires DistinctIds(items)
    ensures DistinctIds(Bucket(items, layer))
  {
    if items != [] {
      BucketDistinct(items[1..], layer);
      BucketMembers(items[1..], layer);
    }
  }

  function InLayer(items: seq<Item>, layer: Layer): set<Item> {
    set x | x in items && x.layer == layer
  }

  // The number of items in a layer.
  lemma BucketSize(items: seq<Item>, layer: Layer)
    requires DistinctIds(items)
    ensures Elems(Bucket(items, layer)) == InLayer(items, layer)
    ensures |Bucket(items, layer)| == |InLayer(items, layer)|
  {
    BucketMembers(items, layer);
    BucketDistinct(items, layer);
    NoDupCard(Bucket(items, layer));
    assert Elems(Bucket(items, layer)) == InLayer(items, layer);
  }

  function Surplus(items: seq<Item>, layer: Layer): nat
    requires !layer.ARCHIVE?
  {
    if |Bucket(items, layer)| <= Capacity(layer) then 0 else |Bucket(items, layer)| - Capacity(layer)
  }

  // The evicted items of a layer are as many as it has too many, all from that layer, and none of them is
  // more important, or as important and newer, than an item that stays.
  lemma LayerEvictionsFacts(items: seq<Item>, layer: Layer)
    requires !layer.ARCHIVE? && DistinctIds(items)
    ensures NoDup(LayerEvictions(items, layer)) && |LayerEvictions(items, layer)| == Surplus(items, layer)
    ensures Elems(LayerEvictions(items, layer)) <= InLayer(items, layer)
    ensures forall x, y ::
      x in LayerEvictions(items, layer) && y in InLayer(items, layer) && y !in LayerEvictions(items, layer) ==>
      EvictBefore(x, y)
  {
    var bucket := Bucket(items, layer);
    var sorted := Sort(EvictBefore, bucket);
    BucketSize(items, layer);
    BucketDistinct(items, layer);
    SortMembers(EvictBefore, bucket);
    SortElems(EvictBefore, bucket);
    SortSorted(EvictBefore, bucket);
    PermutationNoDup(bucket, sorted);
    var out := LayerEvictions(items, layer);
    var n := |out|;
    assert out == sorted[..n];
    assert Elems(out) <= Elems(sorted);
    forall x, y | x in out && y in InLayer(items, layer) && y !in out ensures EvictBefore(x, y) {
      assert y in Elems(bucket);
    }
  }

  // All evictions: members of the list, each once, of a working layer, chosen in their own layer.
  lemma EvictionsFacts(items: seq<Item>)
    requires DistinctIds(items)
    ensures NoDup(Evictions(items))
    ensures forall x :: x in Evictions(items) <==> !x.layer.ARCHIVE? && x in LayerEvictions(items, x.layer)
    ensures forall x :: x in Evictions(items) ==> x in items
  {
    LayerEvictionsFacts(items, N0);
    LayerEvictionsFacts(items, N1);
    LayerEvictionsFacts(items, N2);
    LayerEvictionsFacts(items, N3);
    LayerOf(items, N0);
    LayerOf(items, N1);
    LayerOf(items, N2);
    LayerOf(items, N3);
    var a, b := LayerEvictions(items, N0), LayerEvictions(items, N1);
    var c, d := LayerEvictions(items, N2), LayerEvictions(items, N3);
    JoinNoDup(a, b);
    JoinNoDup(a + b, c);
    JoinNoDup(a + b + c, d);
    forall x ensures x in Evictions(items) <==> !x.layer.ARCHIVE? && x in LayerEvictions(items, x.layer) {
      assert x in Evictions(items) <==> x in a || x in b || x in c || x in d;
    }
  }

  lemma LayerOf(items: seq<Item>, layer: Layer)
    requires !layer.ARCHIVE? && Elems(LayerEvictions(items, layer)) <= InLayer(items, layer)
    ensures forall x :: x in LayerEvictions(items, layer) ==> x.layer == layer && x in items
  {
    forall x | x in LayerEvictions(items, layer) ensures x in InLayer(items, layer) {
      assert x in Elems(LayerEvictions(items, layer));
    }
  }

  lemma JoinNoDup(a: seq<Item>, b: seq<Item>)
    requires NoDup(a) && NoDup(b) && forall x :: x in a ==> x !in b
    ensures NoDup(a + b)
  {
    forall i, j | 0 <= i < j < |a + b| ensures (a + b)[i] != (a + b)[j] {
      if i < |a| <= j { assert a[i] in a && b[j - |a|] in b; }
    }
  }

  // ---- the selection as it runs ----

  datatype Groups = Groups(n0: seq<Item>, n1: seq<Item>, n2: seq<Item>, n3: seq<Item>, archive: seq<Item>)

  function GroupsOf(items: seq<Item>): Groups {
    Groups(Bucket(items, N0), Bucket(items, N1), Bucket(items, N2), Bucket(items, N3), Bucket(items, ARCHIVE))
  }

  lemma {:induction false} BucketAppend(items: seq<Item>, x: Item, layer: Layer)
    ensures Bucket(items + [x], layer) == Bucket(items, layer) + if x.layer == layer then [x] else []
  {
    if items == [] {
      assert ([] + [x])[1..] == [];
    } else {
      BucketAppend(items[1..], x, layer);
      assert (items + [x])[1..] == items[1..] + [x];
    }
  }

  method GroupByLayer(items: seq<Item>) returns (g: Groups)
    ensures g == GroupsOf(items)
  {
    g := Groups([], [], [], [], []);
    for i := 0 to |items|
      invariant g == GroupsOf(items[..i])
    {
      var x := items[i];
      assert items[..i + 1] == items[..i] + [x];
      BucketAppend(items[..i], x, N0);
      BucketAppend(items[..i], x, N1);
      BucketAppend(items[..i], x, N2);
      BucketAppend(items[..i], x, N3);
      BucketAppend(items[..i], x, ARCHIVE);
      match x.layer {
        case N0 => g := g.(n0 := g.n0 + [x]);
        case N1 => g := g.(n1 := g.n1 + [x]);
        case N2 => g := g.(n2 := g.n2 + [x]);
        case N3 => g := g.(n3 := g.n3 + [x]);
        case ARCHIVE => g := g.(archive := g.archive + [x]);
      }
    }
    assert items[..|items|] == items;
  }

  // The part of a sorted bucket that is over its capacity.
  function OverCapacity(bucket: seq<Item>, cap: nat): seq<Item> {
    SortMembers(EvictBefore, bucket);
    if |bucket| <= cap then [] else Sort(EvictBefore, bucket)[..|bucket| - cap]
  }

  method SelectFrom(bucket: seq<Item>, cap: nat) returns (out: seq<Item>)
    ensures out == OverCapacity(bucket, cap)
  {
    out := [];
    SortMembers(EvictBefore, bucket);
    if |bucket| <= cap {
      return;
    }
    var surplus := |bucket| - cap;
    var sorted := Sort(EvictBefore, bucket);
    for i := 0 to surplus
      invariant out == sorted[..i]
    {
      out := out + [sorted[i]];
    }
  }

  method SelectEvictions(items: seq<Item>) returns (evictions: seq<Item>)
    ensures evictions == Evictions(items)
  {
    var grouped := GroupByLayer(items);
    var e0 := SelectFrom(grouped.n0, Capacity(N0));
    var e1 := SelectFrom(grouped.n1, Capacity(N1));
    var e2 := SelectFrom(grouped.n2, Capacity(N2));
    var e3 := SelectFrom(grouped.n3, Capacity(N3));
    evictions := e0 + e1 + e2 + e3;
  }

  // ---- layers, capacities and order, spelled out ----

  // The room of a working layer.
  function RoomIn(layer: Layer): nat
    requires layer != ARCHIVE
  {
    if layer == N0 then 16 else if layer == N1 then 64 else if layer == N2 then 256 else 128
  }

  // As many leave a layer as it has beyond its room.
  lemma {:induction false} EvictedCount(items: seq<Item>, layer: Layer)
    requires layer != ARCHIVE && DistinctIds(items)
    ensures |LayerEvictions(items, layer)| ==
      if |InLayer(items, layer)| <= RoomIn(layer) then 0 else |InLayer(items, layer)| - RoomIn(layer)
  {
    LayerEvictionsFacts(items, layer);
    BucketSize(items, layer);
  }

  function Weight(x: Item): real {
    match x.importance case Some(w) => w case None => 0.5
  }

  // And no item that leaves is heavier, or as heavy and newer, than one of its layer that stays.
  lemma {:induction false} EvictedOrder(items: seq<Item>, layer: Layer, x: Item, y: Item)
    requires layer != ARCHIVE && DistinctIds(items)
    requires x in LayerEvictions(items, layer) && y in items && y.layer == layer && y !in LayerEvictions(items, layer)
    ensures Weight(x) < Weight(y) || (Weight(x) == Weight(y) && x.timestamp <= y.timestamp)
  {
    LayerEvictionsFacts(items, layer);
    assert y in InLayer(items, layer);
  }

  // The layer asked for, the item's own, its metadata's, or else its category's: requirements and decisions are
  // nearest, then facts, then what was observed; everything else is furthest.
  lemma LayerAssigned(explicit: Option<Layer>, own: Option<Layer>, meta: Option<Layer>, category: string)
    ensures var r := AssignLayer(explicit, own, meta, category);
      && (explicit.Some? ==> Some(r) == explicit)
      && (explicit.None? && own.Some? ==> Some(r) == own)
      && (explicit.None? && own.None? && meta.Some? ==> Some(r) == meta)
      && (explicit.None? && own.None? && meta.None? ==>
            && r != ARCHIVE
            && (r == N0 <==> category in {"REQUIREMENT", "DECISION"})
            && (r == N1 <==> category in {"FACT"})
            && (r == N2 <==> category in {"OBSERVATION", "EVIDENCE", "RESULT", "ERROR"}))
  {
  }
}
