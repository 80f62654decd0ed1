// Computing the canonical form step by step, hashing it, and comparing strategies by hash.
module StrategyHash {
  import opened Common
  import opened Ordering
  import opened Json
  import opened FieldOrder
  import opened StableSort
  import opened StrategyIdentity

  // ---- the projection as it is computed ----

  lemma {:induction false} CanonicalFieldsSorted(volatile: set<string>, fields: seq<Field>)
    requires DistinctFieldKeys(fields) && SortedBy(FieldLe, fields)
    ensures SortedBy(FieldLe, CanonicalFields(volatile, fields))
  {
    if fields != [] {
      var rest := CanonicalFields(volatile, fields[1..]);
      CanonicalFieldsSorted(volatile, fields[1..]);
      CanonicalKeys(volatile, fields[1..]);
      forall j | 0 <= j < |rest| ensures StringLe(fields[0].key, rest[j].key) {
        assert rest[j] in rest;
        var i :| 0 <= i < |fields[1..]| && fields[1..][i].key == rest[j].key;
        assert FieldLe(fields[0], fields[i + 1]);
      }
    }
  }

  // Taking the keys in sorted order and skipping the volatile ones gives the canonical fields.
  lemma SortedFirst(volatile: set<string>, fields: seq<Field>)
    requires DistinctFieldKeys(fields)
    ensures CanonicalFields(volatile, SortFields(fields)) == SortFields(CanonicalFields(volatile, fields))
  {
    SortFieldsFacts(fields);
    forall k ensures Lookup(SortFields(fields), k) == Lookup(fields, k) {
      LookupPermuted(fields, SortFields(fields), k);
    }
    SteadyFieldsDecide(volatile, SortFields(fields), fields);
    CanonicalFieldsSorted(volatile, SortFields(fields));
    SortOfSorted(FieldLe, CanonicalFields(volatile, SortFields(fields)));
  }

  lemma FieldsStep(volatile: set<string>, fields: seq<Field>, i: nat)
    requires i < |fields| && DistinctFieldKeys(fields)
    ensures var before := CanonicalFields(volatile, fields[..i]);
      CanonicalFields(volatile, fields[..i + 1]) ==
      if fields[i].key in volatile then before
      else SetField(before, fields[i].key, Canonicalize(volatile, fields[i].value))
  {
    var before := CanonicalFields(volatile, fields[..i]);
    FieldsConcat(volatile, fields[..i], fields[i]);
    assert fields[..i + 1] == fields[..i] + [fields[i]];
    if fields[i].key !in volatile {
      CanonicalKeys(volatile, fields[..i]);
      forall g | g in before ensures g.key != fields[i].key {
        var j :| 0 <= j < |fields[..i]| && fields[..i][j].key == g.key;
        assert fields[j].key == g.key;
      }
      SetFieldAppends(before, Field(fields[i].key, Canonicalize(volatile, fields[i].value)));
    }
  }

  lemma {:induction false} FieldsConcat(volatile: set<string>, fields: seq<Field>, f: Field)
    ensures CanonicalFields(volatile, fields + [f]) == CanonicalFields(volatile, fields) +
      if f.key in volatile then [] else [Field(f.key, Canonicalize(volatile, f.value))]
  {
    if fields == [] {
      assert ([] + [f])[1..] == [] && CanonicalFields(volatile, []) == [];
    } else {
      FieldsConcat(volatile, fields[1..], f);
      assert (fields + [f])[1..] == fields[1..] + [f];
    }
  }

  lemma ItemsStep(volatile: set<string>, items: seq<Json>, i: nat)
    requires i < |items|
    ensures CanonicalItems(volatile, items[..i + 1]) ==
      CanonicalItems(volatile, items[..i]) + [Canonicalize(volatile, items[i])]
  {
    ItemsConcat(volatile, items[..i], [items[i]]);
    assert items[..i + 1] == items[..i] + [items[i]];
    assert [items[i]][1..] == [];
  }

  method CanonicalizeValue(volatile: set<string>, v: Json) returns (r: Json)
    requires WellFormed(v)
    ensures r == Canonicalize(volatile, v)
    decreases v
  {
    match v {
      case Arr(items) =>
        var arr := [];
        for i := 0 to |items|
          invariant arr == CanonicalItems(volatile, items[..i])
        {
          var x := CanonicalizeValue(volatile, items[i]);
          ItemsStep(volatile, items, i);
          arr := arr + [x];
        }
        assert items[..|items|] == items;
        arr := StableSortArray(StableKey, arr);
        r := Arr(arr);
      case Obj(fields) =>
        var sorted := SortFields(fields);
        SortFieldsFacts(fields);
        var out := [];
        for i := 0 to |sorted|
          invariant out == CanonicalFields(volatile, sorted[..i])
        {
          FieldsStep(volatile, sorted, i);
          if sorted[i].key in volatile {
            continue;
          }
          assert sorted[i] in fields;
          var x := CanonicalizeValue(volatile, sorted[i].value);
          out := SetField(out, sorted[i].key, x);
        }
        assert sorted[..|sorted|] == sorted;
        SortedFirst(volatile, fields);
        r := Obj(out);
      case _ =>
        r := v;
    }
  }

  // ---- volatile keys found ----

  function PathOf(prefix: string, key: string): string {
    if prefix == "" then key else prefix + "." + key
  }

  function EphemeralKeys(volatile: set<string>, v: Json, prefix: string): seq<string>
    decreases v, 0
  {
    if v.Obj? then EphemeralFields(volatile, v.fields, prefix) else []
  }

  function EphemeralFields(volatile: set<string>, fields: seq<Field>, prefix: string): seq<string>
    decreases fields, 1
  {
    if fields == [] then []
    else EphemeralField(volatile, fields[0], prefix) + EphemeralFields(volatile, fields[1..], prefix)
  }

  function EphemeralField(volatile: set<string>, f: Field, prefix: string): seq<string>
    decreases f, 2
  {
    var path := PathOf(prefix, f.key);
    if f.key in volatile then [path] else EphemeralKeys(volatile, f.value, path)
  }

  ghost predicate Steady(volatile: set<string>, v: Json) {
    v.Obj? ==> forall f :: f in v.fields ==> f.key !in volatile && Steady(volatile, f.value)
  }

  // No ephemeral key is listed exactly when no volatile key occurs outside arrays.
  lemma {:induction false} NoneEphemeral(volatile: set<string>, v: Json, prefix: string)
    ensures EphemeralKeys(volatile, v, prefix) == [] <==> Steady(volatile, v)
    decreases v, 0
  {
    if v.Obj? { NoneEphemeralFields(volatile, v.fields, prefix); }
  }

  lemma {:induction false} NoneEphemeralFields(volatile: set<string>, fields: seq<Field>, prefix: string)
    ensures EphemeralFields(volatile, fields, prefix) == [] <==>
      forall f :: f in fields ==> f.key !in volatile && Steady(volatile, f.value)
    decreases fields, 1
  {
    if fields != [] {
      NoneEphemeral(volatile, fields[0].value, PathOf(prefix, fields[0].key));
      NoneEphemeralFields(volatile, fields[1..], prefix);
      assert forall f :: f in fields <==> f == fields[0] || f in fields[1..];
    }
  }

  // The keys lead through objects, by keys that count, to one that is volatile.
  ghost predicate LeadsToVolatile(volatile: set<string>, v: Json, keys: seq<string>)
    decreases |keys|
  {
    && v.Obj? && keys != []
    && exists f :: f in v.fields && f.key == keys[0] && StepsToVolatile(volatile, f, keys)
  }

  ghost predicate StepsToVolatile(volatile: set<string>, f: Field, keys: seq<string>)
    requires keys != []
    decreases |keys|, 0
  {
    if f.key in volatile then |keys| == 1 else LeadsToVolatile(volatile, f.value, keys[1..])
  }

  // Keys joined by dots; an empty path so far is dropped.
  function Dotted(prefix: string, keys: seq<string>): string
    decreases |keys|
  {
    if keys == [] then prefix
    else Dotted(if prefix == "" then keys[0] else prefix + "." + keys[0], keys[1..])
  }

  // The dotted path of a volatile key outside arrays.
  ghost predicate LeftOut(volatile: set<string>, v: Json, prefix: string, p: string) {
    exists keys :: LeadsToVolatile(volatile, v, keys) && p == Dotted(prefix, keys)
  }

  // Exactly those paths are listed.
  lemma {:induction false} EphemeralExactly(volatile: set<string>, v: Json, prefix: string, p: string)
    ensures p in EphemeralKeys(volatile, v, prefix) <==> LeftOut(volatile, v, prefix, p)
    decreases v, 0
  {
    if v.Obj? {
      EphemeralFieldsExactly(volatile, v.fields, prefix, p);
      if f, keys :| f in v.fields && StartsAt(volatile, f, prefix, keys, p) {
        assert LeadsToVolatile(volatile, v, keys);
      }
      if keys :| LeadsToVolatile(volatile, v, keys) && p == Dotted(prefix, keys) {
        var f :| f in v.fields && f.key == keys[0] && StepsToVolatile(volatile, f, keys);
        assert StartsAt(volatile, f, prefix, keys, p);
      }
    }
  }

  ghost predicate StartsAt(volatile: set<string>, f: Field, prefix: string, keys: seq<string>, p: string) {
    keys != [] && f.key == keys[0] && StepsToVolatile(volatile, f, keys) && p == Dotted(prefix, keys)
  }

  lemma {:induction false} EphemeralFieldsExactly(volatile: set<string>, fields: seq<Field>, prefix: string, p: string)
    ensures p in EphemeralFields(volatile, fields, prefix) <==>
      exists f, keys :: f in fields && StartsAt(volatile, f, prefix, keys, p)
    decreases fields, 1
  {
    if fields != [] {
      EphemeralFieldExactly(volatile, fields[0], prefix, p);
      EphemeralFieldsExactly(volatile, fields[1..], prefix, p);
      assert forall f :: f in fields <==> f == fields[0] || f in fields[1..];
    }
  }

  lemma {:induction false} EphemeralFieldExactly(volatile: set<string>, f: Field, prefix: string, p: string)
    ensures p in EphemeralField(volatile, f, prefix) <==> exists keys :: StartsAt(volatile, f, prefix, keys, p)
    decreases f, 2
  {
    var path := PathOf(prefix, f.key);
    if f.key in volatile {
      assert [f.key][1..] == [];
      assert StartsAt(volatile, f, prefix, [f.key], path);
      forall keys | StartsAt(volatile, f, prefix, keys, p) ensures p == path {
        assert keys == [f.key];
      }
    } else {
      EphemeralExactly(volatile, f.value, path, p);
      if keys :| LeadsToVolatile(volatile, f.value, keys) && p == Dotted(path, keys) {
        assert ([f.key] + keys)[1..] == keys;
        assert StartsAt(volatile, f, prefix, [f.key] + keys, p);
      }
      if keys :| StartsAt(volatile, f, prefix, keys, p) {
        assert LeadsToVolatile(volatile, f.value, keys[1..]) && p == Dotted(path, keys[1..]);
      }
    }
  }

  // ---- hashing ----

  // null, a hash, or the error raised for an identity without its canonical part
  datatype Hashed = NoHash | Hash(text: string) | Throws

  // null for anything that is not an object or an array
  function Normalize(raw: Json): Option<Json> {
    if raw.Arr? || raw.Obj? then Some(Canonicalize(VOLATILE_KEYS, raw)) else None
  }

  predicate Flagged(v: Json) {
    v.Obj? && Lookup(v.fields, "__normalized") == Some(Bool(true))
  }

  function HashOf(h: string -> string, canonical: Json): Hashed {
    if canonical.Null? then NoHash else Hash(h(Print(canonical)))
  }

  function HashStrategy(h: string -> string, input: Json): Hashed {
    if Flagged(input) then
      match Lookup(input.fields, "canonical")
      case None => Throws
      case Some(c) => HashOf(h, c)
    else
      match Normalize(input)
      case None => NoHash
      case Some(c) => HashOf(h, c)
  }

  function OrNull(v: Option<Json>): Json {
    if v.Some? then v.value else Null
  }

  function HashJson(r: Hashed): Json {
    if r.Hash? then Str(r.text) else Null
  }

  function Texts(paths: seq<string>): (r: seq<Json>)
    ensures forall p :: Str(p) in r <==> p in paths
  {
    if paths == [] then [] else [Str(paths[0])] + Texts(paths[1..])
  }

  function CreateIdentity(h: string -> string, raw: Json): Json {
    var canonical := OrNull(Normalize(raw));
    Obj([
      Field("canonical", canonical),
      Field("hash", HashJson(HashOf(h, canonical))),
      Field("ephemeral", Arr(Texts(EphemeralKeys(VOLATILE_KEYS, raw, "")))),
      Field("__normalized", Bool(true))])
  }

  predicate SameStrategy(h: string -> string, a: Json, b: Json)
    requires !HashStrategy(h, a).Throws? && !HashStrategy(h, b).Throws?
  {
    var ha, hb := HashStrategy(h, a), HashStrategy(h, b);
    if ha.NoHash? && hb.NoHash? then true
    else if ha.NoHash? || hb.NoHash? then false
    else ha.text == hb.text
  }

  // Two different texts with the same hash.
  predicate Collide(h: string -> string, s: string, t: string) {
    s != t && h(s) == h(t)
  }

  lemma IdentityFields(h: string -> string, raw: Json)
    ensures var fs := CreateIdentity(h, raw).fields;
      && Lookup(fs, "canonical") == Some(OrNull(Normalize(raw)))
      && Lookup(fs, "hash") == Some(HashJson(HashOf(h, OrNull(Normalize(raw)))))
      && Lookup(fs, "ephemeral") == Some(Arr(Texts(EphemeralKeys(VOLATILE_KEYS, raw, ""))))
      && Lookup(fs, "__normalized") == Some(Bool(true))
  {
    var fs := CreateIdentity(h, raw).fields;
    assert fs[0].key == "canonical" && fs[1].key == "hash" && fs[2].key == "ephemeral" && fs[3].key == "__normalized";
    assert DistinctFieldKeys(fs);
    forall i | 0 <= i < |fs| ensures Lookup(fs, fs[i].key) == Some(fs[i].value) {
      LookupMember(fs, fs[i]);
    }
  }

  // An identity holds the hash of its canonical text and the dotted paths to the keys that were left out.
  lemma {:induction false} IdentityHolds(h: string -> string, raw: Json)
    ensures var fs := CreateIdentity(h, raw).fields;
      && Lookup(fs, "hash") == Some(if Structured(raw) then Str(h(Print(Canonicalize(VOLATILE_KEYS, raw)))) else Null)
      && Lookup(fs, "ephemeral").Some? && Lookup(fs, "ephemeral").value.Arr?
      && forall p :: Str(p) in Lookup(fs, "ephemeral").value.items <==> LeftOut(VOLATILE_KEYS, raw, "", p)
  {
    IdentityFields(h, raw);
    forall p ensures p in EphemeralKeys(VOLATILE_KEYS, raw, "") <==> LeftOut(VOLATILE_KEYS, raw, "", p) {
      EphemeralExactly(VOLATILE_KEYS, raw, "", p);
    }
  }

  // Hashing an identity gives the hash of the raw strategy's canonical form.
  lemma IdentityHash(h: string -> string, raw: Json)
    ensures HashStrategy(h, CreateIdentity(h, raw)) == HashOf(h, OrNull(Normalize(raw)))
  {
    IdentityFields(h, raw);
  }

  lemma NotInsideItself(v: Json, k: string)
    requires v.Obj?
    ensures Lookup(v.fields, k) != Some(v)
  {
    var r := Lookup(v.fields, k);
    if r.Some? { assert Field(k, r.value) in v.fields; }
  }

  lemma FormInsideItself(volatile: set<string>, raw: Json)
    requires WellFormed(raw) && raw.Obj? && "canonical" !in volatile
    ensures Lookup(raw.fields, "canonical") != Some(Canonicalize(volatile, raw))
  {
    var form := Canonicalize(volatile, raw);
    var cf := CanonicalFields(volatile, raw.fields);
    NotInsideItself(form, "canonical");
    Idempotent(volatile, raw);
    CanonicalLookup(volatile, raw.fields, "canonical");
    CanonicalKeys(volatile, raw.fields);
    SortFieldsFacts(cf);
    LookupPermuted(cf, SortFields(cf), "canonical");
  }

  lemma ClaimedFormDiffers(volatile: set<string>, raw: Json, c: Json)
    requires WellFormed(raw) && raw.Obj? && "canonical" !in volatile
    requires Lookup(raw.fields, "canonical") == Some(c)
    ensures Print(c) != Print(Canonicalize(volatile, raw))
  {
    var form := Canonicalize(volatile, raw);
    FormInsideItself(volatile, raw);
    CanonicalWellFormed(volatile, raw);
    assert Field("canonical", c) in raw.fields;
    if Print(c) == Print(form) { PrintInjective(c, form); }
  }

  lemma CanonicalIsSteady()
    ensures "canonical" !in VOLATILE_KEYS
  {
  }

  // The canonical part a flagged value claims for itself and its real one, when the hash does not tell them apart.
  predicate ClaimCollides(h: string -> string, raw: Json)
    requires raw.Obj?
  {
    var c := Lookup(raw.fields, "canonical");
    c.Some? && !c.value.Null? && Collide(h, Print(c.value), Print(Canonicalize(VOLATILE_KEYS, raw)))
  }

  // A flagged value is hashed as the identity it claims to be. That text is never the text of its own identity, so
  // only a collision makes the two hashes equal.
  lemma FlaggedDiffers(h: string -> string, raw: Json)
    requires WellFormed(raw) && Flagged(raw)
    ensures HashStrategy(h, raw) == HashStrategy(h, CreateIdentity(h, raw)) <==> ClaimCollides(h, raw)
  {
    IdentityHash(h, raw);
    assert OrNull(Normalize(raw)) == Canonicalize(VOLATILE_KEYS, raw);
    CanonicalIsSteady();
    var c := Lookup(raw.fields, "canonical");
    if c.Some? { ClaimedFormDiffers(VOLATILE_KEYS, raw, c.value); }
  }

  // So hashing an identity equals hashing its raw strategy exactly when the raw strategy does not itself
  // carry the flag of an identity, short of a collision.
  lemma IdentityHashExact(h: string -> string, raw: Json)
    requires WellFormed(raw)
    ensures HashStrategy(h, CreateIdentity(h, raw)) == HashStrategy(h, raw) <==> !Flagged(raw) || ClaimCollides(h, raw)
  {
    IdentityHash(h, raw);
    if Flagged(raw) { FlaggedDiffers(h, raw); }
  }

  predicate Structured(v: Json) {
    v.Arr? || v.Obj?
  }

  // Two raw strategies are the same exactly when they are similar, or their different canonical texts collide;
  // everything that is neither an object nor an array counts as one strategy.
  lemma SameStrategyExact(h: string -> string, a: Json, b: Json)
    requires WellFormed(a) && WellFormed(b) && !Flagged(a) && !Flagged(b)
    ensures SameStrategy(h, a, b) <==>
      if Structured(a) && Structured(b) then
        || Similar(VOLATILE_KEYS, a, b)
        || Collide(h, Print(Canonicalize(VOLATILE_KEYS, a)), Print(Canonicalize(VOLATILE_KEYS, b)))
      else !Structured(a) && !Structured(b)
  {
    if Structured(a) && Structured(b) {
      SameFormIffSimilar(VOLATILE_KEYS, a, b);
      CanonicalWellFormed(VOLATILE_KEYS, a);
      CanonicalWellFormed(VOLATILE_KEYS, b);
      var ca, cb := Canonicalize(VOLATILE_KEYS, a), Canonicalize(VOLATILE_KEYS, b);
      if Print(ca) == Print(cb) { PrintInjective(ca, cb); }
    }
  }

  // Similar strategies are the same under any hash.
  lemma SimilarSame(h: string -> string, a: Json, b: Json)
    requires WellFormed(a) && WellFormed(b) && !Flagged(a) && !Flagged(b) && Similar(VOLATILE_KEYS, a, b)
    ensures SameStrategy(h, a, b)
  {
    SameFormIffSimilar(VOLATILE_KEYS, a, b);
  }

  // And a strategy is the same as the identity made from it.
  lemma SameAsItsIdentity(h: string -> string, raw: Json)
    requires !Flagged(raw)
    ensures HashStrategy(h, CreateIdentity(h, raw)) == HashStrategy(h, raw)
    ensures SameStrategy(h, CreateIdentity(h, raw), raw)
  {
    IdentityHash(h, raw);
  }

  // ---- the keys that do not count ----

  // The form of what is found under a key.
  function FormUnder(fields: seq<Field>, k: string): Option<Json> {
    var v := Lookup(fields, k);
    if v.None? then None else Some(Canonicalize(VOLATILE_KEYS, v.value))
  }

  // The fifteen keys that carry no meaning: times, run and request ids, counters.
  predicate Ignored(k: string) {
    || k == "createdAt" || k == "updatedAt" || k == "modifiedAt" || k == "instanceId" || k == "runId"
    || k == "correlationId" || k == "requestId" || k == "sessionId" || k == "traceId" || k == "attempt"
    || k == "durationMs" || k == "timestamp" || k == "ts" || k == "id" || k == "_id"
  }

  ghost predicate AgreeElsewhere(fs: seq<Field>, gs: seq<Field>) {
    forall k :: !Ignored(k) ==> FormUnder(fs, k) == FormUnder(gs, k)
  }

  lemma IgnoredAre(k: string)
    ensures Ignored(k) <==> k in VOLATILE_KEYS
  {
  }

  lemma {:induction false} SameUnderKey(fs: seq<Field>, gs: seq<Field>, k: string)
    ensures Lookup(CanonicalFields(VOLATILE_KEYS, fs), k) == Lookup(CanonicalFields(VOLATILE_KEYS, gs), k) <==>
      Ignored(k) || FormUnder(fs, k) == FormUnder(gs, k)
  {
    IgnoredAre(k);
    CanonicalLookup(VOLATILE_KEYS, fs, k);
    CanonicalLookup(VOLATILE_KEYS, gs, k);
  }

  // Two objects have the same form exactly when they agree, up to form, under every key but those fifteen.
  lemma {:induction false} FifteenKeys(fs: seq<Field>, gs: seq<Field>)
    requires DistinctFieldKeys(fs) && DistinctFieldKeys(gs)
    ensures Canonicalize(VOLATILE_KEYS, Obj(fs)) == Canonicalize(VOLATILE_KEYS, Obj(gs)) <==> AgreeElsewhere(fs, gs)
  {
    var cf, cg := CanonicalFields(VOLATILE_KEYS, fs), CanonicalFields(VOLATILE_KEYS, gs);
    CanonicalKeys(VOLATILE_KEYS, fs);
    CanonicalKeys(VOLATILE_KEYS, gs);
    SortedFieldsExact(cf, cg);
    forall k ensures Lookup(cf, k) == Lookup(cg, k) <==> Ignored(k) || FormUnder(fs, k) == FormUnder(gs, k) {
      SameUnderKey(fs, gs, k);
    }
  }

  // So two unflagged strategies are the same exactly when they agree so, or their different texts collide.
  lemma {:induction false} SameStrategyKeys(h: string -> string, fs: seq<Field>, gs: seq<Field>)
    requires WellFormed(Obj(fs)) && WellFormed(Obj(gs))
    requires Lookup(fs, "__normalized") != Some(Bool(true)) && Lookup(gs, "__normalized") != Some(Bool(true))
    ensures SameStrategy(h, Obj(fs), Obj(gs)) <==>
      || AgreeElsewhere(fs, gs)
      || h(Print(Canonicalize(VOLATILE_KEYS, Obj(fs)))) == h(Print(Canonicalize(VOLATILE_KEYS, Obj(gs))))
  {
    FifteenKeys(fs, gs);
    SameStrategyExact(h, Obj(fs), Obj(gs));
    SameFormIffSimilar(VOLATILE_KEYS, Obj(fs), Obj(gs));
  }

  // Similarity is an equivalence.
  lemma SimilarEquivalence(volatile: set<string>, a: Json, b: Json, c: Json)
    requires WellFormed(a) && WellFormed(b) && WellFormed(c)
    ensures Similar(volatile, a, a)
    ensures Similar(volatile, a, b) ==> Similar(volatile, b, a)
    ensures Similar(volatile, a, b) && Similar(volatile, b, c) ==> Similar(volatile, a, c)
  {
    SameFormIffSimilar(volatile, a, a);
    SameFormIffSimilar(volatile, a, b);
    SameFormIffSimilar(volatile, b, a);
    SameFormIffSimilar(volatile, b, c);
    SameFormIffSimilar(volatile, a, c);
  }
}
