// Canonical projection of strategies, their identity and their hash. Strategies are JSON values; the hash
// function is a parameter.
module StrategyIdentity {
  import opened Common
  import opened Ordering
  import opened Json
  import opened FieldOrder
  import opened StableSort
  import opened CanonicalText

  const VOLATILE_KEYS: set<string> := {
    "createdAt", "updatedAt", "modifiedAt", "instanceId", "runId", "correlationId", "requestId", "sessionId",
    "traceId", "attempt", "durationMs", "timestamp", "ts", "id", "_id" }

  // ---- stable keys ----

  function StableKey(v: Json): string
    decreases v, 0
  {
    match v
    case Null => " "
    case Str(s) => "s:" + s
    case Num(t) => "n:" + t
    case Bool(b) => if b then "b:true" else "b:false"
    case Arr(items) => "a:" + Join(StableItems(items), "|")
    case Obj(fields) => "o:" + Join(Assignments(Sort(KeyedLe, StableFields(fields))), "&")
  }

  function StableItems(items: seq<Json>): seq<string>
    decreases items, 1
  {
    if items == [] then [] else [StableKey(items[0])] + StableItems(items[1..])
  }

  function StableFields(fields: seq<Field>): seq<Keyed>
    decreases fields, 1
  {
    if fields == [] then []
    else [Keyed(fields[0].key, StableKey(fields[0].value))] + StableFields(fields[1..])
  }

  function Assignments(keyed: seq<Keyed>): seq<string> {
    if keyed == [] then [] else [keyed[0].key + "=" + keyed[0].text] + Assignments(keyed[1..])
  }

  // ---- the canonical projection ----

  function Canonicalize(volatile: set<string>, v: Json): Json
    decreases v, 0
  {
    match v
    case Arr(items) => Arr(SortByKey(StableKey, CanonicalItems(volatile, items)))
    case Obj(fields) => Obj(SortFields(CanonicalFields(volatile, fields)))
    case _ => v
  }

  function CanonicalItems(volatile: set<string>, items: seq<Json>): (r: seq<Json>)
    ensures |r| == |items|
    decreases items, 1
  {
    if items == [] then [] else [Canonicalize(volatile, items[0])] + CanonicalItems(volatile, items[1..])
  }

  function CanonicalFields(volatile: set<string>, fields: seq<Field>): seq<Field>
    decreases fields, 1
  {
    if fields == [] then []
    else if fields[0].key in volatile then CanonicalFields(volatile, fields[1..])
    else [Field(fields[0].key, Canonicalize(volatile, fields[0].value))] + CanonicalFields(volatile, fields[1..])
  }

  // ---- when two values have the same projection ----

  // Objects agree under every key that is not volatile; arrays agree, for every stable key, on the
  // elements that have it, in their order.
  ghost predicate Similar(volatile: set<string>, a: Json, b: Json)
    decreases a, 0, 0
  {
    match (a, b)
    case (Arr(xs), Arr(ys)) => forall k: string :: Aligned(volatile, xs, ys, k)
    case (Obj(fs), Obj(gs)) => forall k: string :: k !in volatile ==> Agree(volatile, fs, gs, k)
    case _ => a == b
  }

  ghost predicate Agree(volatile: set<string>, fs: seq<Field>, gs: seq<Field>, k: string)
    decreases fs, 1, 0
  {
    match (Lookup(fs, k), Lookup(gs, k))
    case (Some(x), Some(y)) => assert Field(k, x) in fs; Similar(volatile, x, y)
    case (None, None) => true
    case _ => false
  }

  ghost predicate Aligned(volatile: set<string>, xs: seq<Json>, ys: seq<Json>, k: string)
    decreases xs, 1, |ys|
  {
    if xs == [] then forall y :: y in ys ==> StableKey(Canonicalize(volatile, y)) != k
    else if StableKey(Canonicalize(volatile, xs[0])) != k then Aligned(volatile, xs[1..], ys, k)
    else if ys == [] then false
    else if StableKey(Canonicalize(volatile, ys[0])) != k then Aligned(volatile, xs, ys[1..], k)
    else Similar(volatile, xs[0], ys[0]) && Aligned(volatile, xs[1..], ys[1..], k)
  }

  lemma {:induction false} CanonicalLookup(volatile: set<string>, fields: seq<Field>, k: string)
    ensures Lookup(CanonicalFields(volatile, fields), k) ==
      if k in volatile || Lookup(fields, k).None? then None
      else Some(Canonicalize(volatile, Lookup(fields, k).value))
  {
    if fields != [] && (fields[0].key != k || k in volatile) {
      CanonicalLookup(volatile, fields[1..], k);
    }
  }

  lemma {:induction false} CanonicalKeys(volatile: set<string>, fields: seq<Field>)
    requires DistinctFieldKeys(fields)
    ensures DistinctFieldKeys(CanonicalFields(volatile, fields))
    ensures forall f :: f in CanonicalFields(volatile, fields) ==> f.key !in volatile && HasKey(fields, f.key)
  {
    if fields != [] {
      CanonicalKeys(volatile, fields[1..]);
      forall k | HasKey(fields[1..], k) ensures HasKey(fields, k) && k != fields[0].key {
        var i :| 0 <= i < |fields[1..]| && fields[1..][i].key == k;
        assert fields[i + 1].key == k;
      }
    }
  }

  ghost predicate HasKey(fields: seq<Field>, k: string) {
    exists i :: 0 <= i < |fields| && fields[i].key == k
  }

  // Two values have the same canonical form exactly when they are similar.
  lemma {:induction false} SameFormIffSimilar(volatile: set<string>, a: Json, b: Json)
    requires WellFormed(a) && WellFormed(b)
    ensures Canonicalize(volatile, a) == Canonicalize(volatile, b) <==> Similar(volatile, a, b)
    decreases a, 0, 0
  {
    match (a, b) {
      case (Arr(xs), Arr(ys)) => ArraysExact(volatile, xs, ys);
      case (Obj(fs), Obj(gs)) => ObjectsExact(volatile, fs, gs);
      case _ =>
    }
  }

  lemma {:induction false} ArraysExact(volatile: set<string>, xs: seq<Json>, ys: seq<Json>)
    requires WellFormed(Arr(xs)) && WellFormed(Arr(ys))
    ensures Canonicalize(volatile, Arr(xs)) == Canonicalize(volatile, Arr(ys)) <==> Similar(volatile, Arr(xs), Arr(ys))
    decreases xs, 2, 0
  {
    var cx, cy := CanonicalItems(volatile, xs), CanonicalItems(volatile, ys);
    SortByKeyExact(StableKey, cx, cy);
    if SameClasses(StableKey, cx, cy) {
      forall k: string ensures Aligned(volatile, xs, ys, k) {
        assert WithKey(StableKey, cx, k) == WithKey(StableKey, cy, k);
        AlignedExact(volatile, xs, ys, k);
      }
    }
    if Similar(volatile, Arr(xs), Arr(ys)) {
      forall k ensures WithKey(StableKey, cx, k) == WithKey(StableKey, cy, k) {
        AlignedExact(volatile, xs, ys, k);
      }
      assert SameClasses(StableKey, cx, cy);
    }
  }

  lemma {:induction false} ObjectsExact(volatile: set<string>, fs: seq<Field>, gs: seq<Field>)
    requires WellFormed(Obj(fs)) && WellFormed(Obj(gs))
    ensures Canonicalize(volatile, Obj(fs)) == Canonicalize(volatile, Obj(gs)) <==> Similar(volatile, Obj(fs), Obj(gs))
    decreases fs, 2, 0
  {
    var cf, cg := CanonicalFields(volatile, fs), CanonicalFields(volatile, gs);
    CanonicalKeys(volatile, fs);
    CanonicalKeys(volatile, gs);
    SortedFieldsExact(cf, cg);
    forall k ensures Lookup(cf, k) == Lookup(cg, k) <==> (k !in volatile ==> Agree(volatile, fs, gs, k)) {
      AgreeExact(volatile, fs, gs, k);
    }
    assert SameLookups(cf, cg) <==> Similar(volatile, Obj(fs), Obj(gs));
  }

  lemma {:induction false} AgreeExact(volatile: set<string>, fs: seq<Field>, gs: seq<Field>, k: string)
    requires WellFormed(Obj(fs)) && WellFormed(Obj(gs))
    ensures Lookup(CanonicalFields(volatile, fs), k) == Lookup(CanonicalFields(volatile, gs), k) <==>
      (k !in volatile ==> Agree(volatile, fs, gs, k))
    decreases fs, 1, 0
  {
    CanonicalLookup(volatile, fs, k);
    CanonicalLookup(volatile, gs, k);
    var x, y := Lookup(fs, k), Lookup(gs, k);
    if x.Some? && y.Some? {
      assert Field(k, x.value) in fs && Field(k, y.value) in gs;
      SameFormIffSimilar(volatile, x.value, y.value);
    }
  }

  lemma ItemsWithKey(volatile: set<string>, xs: seq<Json>, k: string)
    requires xs != []
    ensures var c := Canonicalize(volatile, xs[0]);
      WithKey(StableKey, CanonicalItems(volatile, xs), k) ==
      (if StableKey(c) == k then [c] else []) + WithKey(StableKey, CanonicalItems(volatile, xs[1..]), k)
  {
  }

  lemma {:induction false} AlignedExact(volatile: set<string>, xs: seq<Json>, ys: seq<Json>, k: string)
    requires WellFormed(Arr(xs)) && WellFormed(Arr(ys))
    ensures Aligned(volatile, xs, ys, k) <==>
      WithKey(StableKey, CanonicalItems(volatile, xs), k) == WithKey(StableKey, CanonicalItems(volatile, ys), k)
    decreases xs, 1, |ys|
  {
    if xs == [] {
      NoneWithKey(volatile, ys, k);
    } else if StableKey(Canonicalize(volatile, xs[0])) != k {
      ItemsWithKey(volatile, xs, k);
      AlignedExact(volatile, xs[1..], ys, k);
    } else if ys == [] {
      ItemsWithKey(volatile, xs, k);
    } else if StableKey(Canonicalize(volatile, ys[0])) != k {
      ItemsWithKey(volatile, ys, k);
      AlignedExact(volatile, xs, ys[1..], k);
    } else {
      ItemsWithKey(volatile, xs, k);
      ItemsWithKey(volatile, ys, k);
      SameFormIffSimilar(volatile, xs[0], ys[0]);
      AlignedExact(volatile, xs[1..], ys[1..], k);
      SameCons(Canonicalize(volatile, xs[0]), Canonicalize(volatile, ys[0]),
        WithKey(StableKey, CanonicalItems(volatile, xs[1..]), k), WithKey(StableKey, CanonicalItems(volatile, ys[1..]), k));
    }
  }

  lemma SameCons(x: Json, y: Json, s: seq<Json>, t: seq<Json>)
    ensures [x] + s == [y] + t <==> x == y && s == t
  {
    if [x] + s == [y] + t {
      assert ([x] + s)[0] == x && ([y] + t)[0] == y;
      assert ([x] + s)[1..] == s && ([y] + t)[1..] == t;
    }
  }

  lemma {:induction false} NoneWithKey(volatile: set<string>, ys: seq<Json>, k: string)
    ensures WithKey(StableKey, CanonicalItems(volatile, ys), k) == [] <==>
      forall y :: y in ys ==> StableKey(Canonicalize(volatile, y)) != k
  {
    if ys != [] {
      ItemsWithKey(volatile, ys, k);
      NoneWithKey(volatile, ys[1..], k);
      assert forall y :: y in ys <==> y == ys[0] || y in ys[1..];
    }
  }

  // ---- what the projection ignores ----

  // Objects that agree under every key that is not volatile, in any order, have the same form.
  lemma SteadyFieldsDecide(volatile: set<string>, fs: seq<Field>, gs: seq<Field>)
    requires DistinctFieldKeys(fs) && DistinctFieldKeys(gs)
    requires forall k :: k !in volatile ==> Lookup(fs, k) == Lookup(gs, k)
    ensures Canonicalize(volatile, Obj(fs)) == Canonicalize(volatile, Obj(gs))
  {
    CanonicalKeys(volatile, fs);
    CanonicalKeys(volatile, gs);
    SortedFieldsExact(CanonicalFields(volatile, fs), CanonicalFields(volatile, gs));
    forall k ensures Lookup(CanonicalFields(volatile, fs), k) == Lookup(CanonicalFields(volatile, gs), k) {
      CanonicalLookup(volatile, fs, k);
      CanonicalLookup(volatile, gs, k);
    }
  }

  lemma {:induction false} ItemsConcat(volatile: set<string>, xs: seq<Json>, ys: seq<Json>)
    ensures CanonicalItems(volatile, xs + ys) == CanonicalItems(volatile, xs) + CanonicalItems(volatile, ys)
  {
    if xs == [] {
      assert xs + ys == ys;
    } else {
      ItemsConcat(volatile, xs[1..], ys);
      assert (xs + ys)[1..] == xs[1..] + ys;
    }
  }

  lemma PairItems(volatile: set<string>, before: seq<Json>, x: Json, y: Json, after: seq<Json>)
    ensures CanonicalItems(volatile, before + [x, y] + after) == CanonicalItems(volatile, before) +
      [Canonicalize(volatile, x), Canonicalize(volatile, y)] + CanonicalItems(volatile, after)
  {
    ItemsConcat(volatile, before + [x, y], after);
    ItemsConcat(volatile, before, [x, y]);
    assert [x, y][1..] == [y] && [y][1..] == [];
  }

  // Exchanging neighbours in an array keeps the form exactly when they are similar or their canonical
  // forms have different stable keys; so any reordering keeps it when all the keys differ.
  lemma ArraySwapExact(volatile: set<string>, before: seq<Json>, x: Json, y: Json, after: seq<Json>)
    ensures var cx, cy := Canonicalize(volatile, x), Canonicalize(volatile, y);
      Canonicalize(volatile, Arr(before + [x, y] + after)) == Canonicalize(volatile, Arr(before + [y, x] + after))
      <==> (cx == cy || StableKey(cx) != StableKey(cy))
  {
    PairItems(volatile, before, x, y, after);
    PairItems(volatile, before, y, x, after);
    SwapExact(StableKey, CanonicalItems(volatile, before), Canonicalize(volatile, x), Canonicalize(volatile, y),
      CanonicalItems(volatile, after));
  }

  lemma {:induction false} ItemsPermuted(volatile: set<string>, xs: seq<Json>, ys: seq<Json>)
    requires multiset(xs) == multiset(ys)
    ensures multiset(CanonicalItems(volatile, xs)) == multiset(CanonicalItems(volatile, ys))
  {
    if xs == [] {
      assert |multiset(ys)| == 0;
    } else {
      SameMembers(xs, ys);
      assert xs[0] in ys;
      var i :| 0 <= i < |ys| && ys[i] == xs[0];
      RestPermuted(xs, ys, i);
      ItemsPermuted(volatile, xs[1..], ys[..i] + ys[i + 1..]);
      assert xs == [xs[0]] + xs[1..];
      ItemsRemoved(volatile, ys, i);
    }
  }

  lemma RestPermuted(xs: seq<Json>, ys: seq<Json>, i: nat)
    requires multiset(xs) == multiset(ys) && xs != [] && i < |ys| && ys[i] == xs[0]
    ensures multiset(xs[1..]) == multiset(ys[..i] + ys[i + 1..])
  {
    assert ys == ys[..i] + [ys[i]] + ys[i + 1..];
    assert xs == [xs[0]] + xs[1..];
    assert multiset(xs[1..]) == multiset(xs) - multiset{xs[0]};
  }

  lemma ItemsRemoved(volatile: set<string>, xs: seq<Json>, i: nat)
    requires i < |xs|
    ensures multiset(CanonicalItems(volatile, xs)) ==
      multiset(CanonicalItems(volatile, xs[..i] + xs[i + 1..])) + multiset{Canonicalize(volatile, xs[i])}
  {
    ItemsConcat(volatile, xs[..i], xs[i..]);
    ItemsConcat(volatile, xs[..i], xs[i + 1..]);
    assert xs == xs[..i] + xs[i..];
    assert xs[i..][1..] == xs[i + 1..];
  }

  lemma ReorderedArray(volatile: set<string>, xs: seq<Json>, ys: seq<Json>)
    requires multiset(xs) == multiset(ys)
    requires NoDupKeys(CanonicalItems(volatile, xs))
    ensures Canonicalize(volatile, Arr(xs)) == Canonicalize(volatile, Arr(ys))
  {
    var cx, cy := CanonicalItems(volatile, xs), CanonicalItems(volatile, ys);
    ItemsPermuted(volatile, xs, ys);
    KeyLeTotal(StableKey);
    StringOrder();
    assert Separates(KeyLe(StableKey), cx);
    SortPermutationInvariant(KeyLe(StableKey), cx, cy);
  }

  predicate NoDupKeys(items: seq<Json>) {
    forall i, j :: 0 <= i < j < |items| ==> StableKey(items[i]) != StableKey(items[j])
  }

  // Stable keys are not injective, so the order of these two elements shows in the form.
  lemma CollidingKeys(volatile: set<string>)
    ensures var x, y := Arr([Str("a|s:b")]), Arr([Str("a"), Str("b")]);
      && x != y && StableKey(x) == StableKey(y) == "a:s:a|s:b"
      && Canonicalize(volatile, Arr([x, y])) != Canonicalize(volatile, Arr([y, x]))
  {
    var x, y := Arr([Str("a|s:b")]), Arr([Str("a"), Str("b")]);
    CollidingForms(volatile);
    ArraySwapExact(volatile, [], x, y, []);
    assert [] + [x, y] + [] == [x, y] && [] + [y, x] + [] == [y, x];
  }

  lemma CollidingForms(volatile: set<string>)
    ensures var x, y := Arr([Str("a|s:b")]), Arr([Str("a"), Str("b")]);
      && StableKey(x) == StableKey(y) == "a:s:a|s:b"
      && Canonicalize(volatile, x) == x && Canonicalize(volatile, y) == y
  {
    var one, two := [Str("a|s:b")], [Str("a"), Str("b")];
    assert "s:" + "a|s:b" == "s:a|s:b" && "s:" + "a" == "s:a" && "s:" + "b" == "s:b";
    assert "s:a" + "|" + "s:b" == "s:a|s:b" && "a:" + "s:a|s:b" == "a:s:a|s:b";
    CollidingKeysText(one, two);
    assert Fixed(volatile, one[0]) && Fixed(volatile, two[0]) && Fixed(volatile, two[1]);
    FixedItems(volatile, one);
    FixedItems(volatile, two);
    SortOfSorted(KeyLe(StableKey), one);
    assert StringLe("s:a", "s:b") by {
      assert "s:a"[1..] == ":a" && "s:b"[1..] == ":b" && ":a"[1..] == "a" && ":b"[1..] == "b";
    }
    SortOfSorted(KeyLe(StableKey), two);
  }

  lemma CollidingKeysText(one: seq<Json>, two: seq<Json>)
    requires |one| == 1 && |two| == 2
    ensures StableKey(Arr(one)) == "a:" + StableKey(one[0])
    ensures StableKey(Arr(two)) == "a:" + (StableKey(two[0]) + "|" + StableKey(two[1]))
  {
    assert two[1..] == [two[1]] && two[1..][1..] == [] && one[1..] == [];
    assert StableItems(two[1..]) == [StableKey(two[1])];
    assert StableItems(two) == [StableKey(two[0])] + StableItems(two[1..]);
    var parts := StableItems(two);
    assert parts[1..] == [StableKey(two[1])];
    assert Join(parts, "|") == parts[0] + "|" + Join(parts[1..], "|");
    assert StableItems(one) == [StableKey(one[0])];
  }

  // ---- canonical forms are well formed and fixed ----

  lemma {:induction false} CanonicalWellFormed(volatile: set<string>, v: Json)
    requires WellFormed(v)
    ensures WellFormed(Canonicalize(volatile, v))
    decreases v, 0
  {
    match v {
      case Arr(items) =>
        ItemsWellFormed(volatile, items);
        SortElems(KeyLe(StableKey), CanonicalItems(volatile, items));
      case Obj(fields) =>
        FieldsWellFormed(volatile, fields);
        CanonicalKeys(volatile, fields);
        SortFieldsFacts(CanonicalFields(volatile, fields));
      case _ =>
    }
  }

  lemma {:induction false} ItemsWellFormed(volatile: set<string>, items: seq<Json>)
    requires forall x :: x in items ==> WellFormed(x)
    ensures forall x :: x in CanonicalItems(volatile, items) ==> WellFormed(x)
    decreases items, 1
  {
    if items != [] {
      CanonicalWellFormed(volatile, items[0]);
      ItemsWellFormed(volatile, items[1..]);
    }
  }

  lemma {:induction false} FieldsWellFormed(volatile: set<string>, fields: seq<Field>)
    requires forall f :: f in fields ==> WellFormed(f.value)
    ensures forall f :: f in CanonicalFields(volatile, fields) ==> WellFormed(f.value)
    decreases fields, 1
  {
    if fields != [] {
      assert fields[0] in fields;
      CanonicalWellFormed(volatile, fields[0].value);
      FieldsWellFormed(volatile, fields[1..]);
    }
  }

  ghost predicate Fixed(volatile: set<string>, v: Json) {
    Canonicalize(volatile, v) == v
  }

  lemma {:induction false} FixedItems(volatile: set<string>, items: seq<Json>)
    requires forall x :: x in items ==> Fixed(volatile, x)
    ensures CanonicalItems(volatile, items) == items
  {
    if items != [] {
      assert Fixed(volatile, items[0]);
      FixedItems(volatile, items[1..]);
    }
  }

  ghost predicate FixedField(volatile: set<string>, f: Field) {
    f.key !in volatile && Fixed(volatile, f.value)
  }

  lemma {:induction false} FixedFields(volatile: set<string>, fields: seq<Field>)
    requires forall f :: f in fields ==> FixedField(volatile, f)
    ensures CanonicalFields(volatile, fields) == fields
  {
    if fields != [] {
      assert FixedField(volatile, fields[0]);
      FixedFields(volatile, fields[1..]);
    }
  }

  lemma {:induction false} Idempotent(volatile: set<string>, v: Json)
    requires WellFormed(v)
    ensures Fixed(volatile, Canonicalize(volatile, v))
    decreases v, 0
  {
    match v {
      case Arr(items) =>
        var sorted := SortByKey(StableKey, CanonicalItems(volatile, items));
        ItemsFixed(volatile, items);
        SortElems(KeyLe(StableKey), CanonicalItems(volatile, items));
        FixedItems(volatile, sorted);
        SortByKeySorted(StableKey, CanonicalItems(volatile, items));
        SortOfSorted(KeyLe(StableKey), sorted);
      case Obj(fields) =>
        var cf := CanonicalFields(volatile, fields);
        CanonicalKeys(volatile, fields);
        FieldsFixed(volatile, fields);
        SortFieldsFacts(cf);
        FixedFields(volatile, SortFields(cf));
        SortFieldsIdempotent(cf);
      case _ =>
    }
  }

  lemma {:induction false} ItemsFixed(volatile: set<string>, items: seq<Json>)
    requires forall x :: x in items ==> WellFormed(x)
    ensures forall x :: x in CanonicalItems(volatile, items) ==> Fixed(volatile, x)
    decreases items, 1
  {
    if items != [] {
      Idempotent(volatile, items[0]);
      ItemsFixed(volatile, items[1..]);
    }
  }

  lemma {:induction false} FieldsFixed(volatile: set<string>, fields: seq<Field>)
    requires forall f :: f in fields ==> WellFormed(f.value)
    ensures forall f :: f in CanonicalFields(volatile, fields) ==> FixedField(volatile, f)
    decreases fields, 1
  {
    if fields != [] {
      assert fields[0] in fields;
      Idempotent(volatile, fields[0].value);
      FieldsFixed(volatile, fields[1..]);
    }
  }
}
