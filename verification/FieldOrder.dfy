// The fields of a JSON object put in key order, looked up and dropped by key.
module FieldOrder {
  import opened Common
  import opened Ordering
  import opened Json

  predicate FieldLe(f: Field, g: Field) {
    StringLe(f.key, g.key)
  }

  function SortFields(fields: seq<Field>): seq<Field> {
    Sort(FieldLe, fields)
  }

  function Lookup(fields: seq<Field>, key: string): (r: Option<Json>)
    ensures r.Some? ==> Field(key, r.value) in fields
    ensures r.None? ==> forall f :: f in fields ==> f.key != key
  {
    if fields == [] then None
    else if fields[0].key == key then Some(fields[0].value)
    else Lookup(fields[1..], key)
  }

  function Without(fields: seq<Field>, keys: set<string>): seq<Field> {
    if fields == [] then []
    else if fields[0].key in keys then Without(fields[1..], keys)
    else [fields[0]] + Without(fields[1..], keys)
  }

  lemma {:induction false} WithoutMembers(fields: seq<Field>, keys: set<string>)
    ensures forall f :: f in Without(fields, keys) <==> f in fields && f.key !in keys
  {
    if fields != [] {
      WithoutMembers(fields[1..], keys);
      assert forall f :: f in fields <==> f == fields[0] || f in fields[1..];
    }
  }

  lemma FieldOrderTotal()
    ensures TotalPreorder(FieldLe)
  {
    StringOrder();
  }

  lemma DistinctSeparates(fields: seq<Field>)
    requires DistinctFieldKeys(fields)
    ensures Separates(FieldLe, fields) && NoDup(fields)
  {
    StringOrder();
  }

  lemma PermutedKeysDistinct(a: seq<Field>, b: seq<Field>)
    requires DistinctFieldKeys(a) && multiset(a) == multiset(b)
    ensures DistinctFieldKeys(b)
  {
    DistinctSeparates(a);
    PermutationNoDup(a, b);
    forall i, j | 0 <= i < j < |b| ensures b[i].key != b[j].key {
      SameMembers(a, b);
      assert b[i] in a && b[j] in a;
    }
  }

  lemma SortFieldsFacts(fields: seq<Field>)
    requires DistinctFieldKeys(fields)
    ensures multiset(SortFields(fields)) == multiset(fields)
    ensures forall f :: f in SortFields(fields) <==> f in fields
    ensures SortedBy(FieldLe, SortFields(fields)) && DistinctFieldKeys(SortFields(fields))
  {
    FieldOrderTotal();
    SortMembers(FieldLe, fields);
    SortElems(FieldLe, fields);
    SortSorted(FieldLe, fields);
    PermutedKeysDistinct(fields, SortFields(fields));
  }

  // With distinct keys the sorted fields do not depend on the order they came in.
  lemma SortFieldsUnique(a: seq<Field>, b: seq<Field>)
    requires DistinctFieldKeys(a) && multiset(a) == multiset(b)
    ensures SortFields(a) == SortFields(b)
  {
    FieldOrderTotal();
    DistinctSeparates(a);
    SortPermutationInvariant(FieldLe, a, b);
  }

  lemma SortFieldsIdempotent(fields: seq<Field>)
    requires DistinctFieldKeys(fields)
    ensures SortFields(SortFields(fields)) == SortFields(fields)
  {
    SortFieldsFacts(fields);
    SortFieldsUnique(SortFields(fields), fields);
  }

  lemma {:induction false} WithoutMultiset(fields: seq<Field>, keys: set<string>)
    ensures forall f :: multiset(Without(fields, keys))[f] == if f.key in keys then 0 else multiset(fields)[f]
  {
    if fields != [] {
      assert fields == [fields[0]] + fields[1..];
      WithoutMultiset(fields[1..], keys);
    }
  }

  lemma {:induction false} WithoutDistinct(fields: seq<Field>, keys: set<string>)
    requires DistinctFieldKeys(fields)
    ensures DistinctFieldKeys(Without(fields, keys))
  {
    if fields != [] {
      WithoutDistinct(fields[1..], keys);
      WithoutMembers(fields[1..], keys);
      assert forall f :: f in fields[1..] ==> f.key != fields[0].key;
    }
  }

  // Dropping keys and sorting commute.
  lemma WithoutSort(fields: seq<Field>, keys: set<string>)
    requires DistinctFieldKeys(fields)
    ensures SortFields(Without(SortFields(fields), keys)) == SortFields(Without(fields, keys))
  {
    SortFieldsFacts(fields);
    WithoutMultiset(fields, keys);
    WithoutMultiset(SortFields(fields), keys);
    WithoutDistinct(SortFields(fields), keys);
    var a, b := Without(SortFields(fields), keys), Without(fields, keys);
    assert multiset(a) == multiset(b);
    SortFieldsUnique(a, b);
  }

  lemma LookupMember(fields: seq<Field>, f: Field)
    requires DistinctFieldKeys(fields) && f in fields
    ensures Lookup(fields, f.key) == Some(f.value)
  {
  }

  // Permuting distinct keys does not change what is found under any of them.
  lemma LookupPermuted(a: seq<Field>, b: seq<Field>, key: string)
    requires DistinctFieldKeys(a) && multiset(a) == multiset(b)
    ensures Lookup(a, key) == Lookup(b, key)
  {
    SameMembers(a, b);
    PermutedKeysDistinct(a, b);
    var r := Lookup(a, key);
    if r.Some? {
      LookupMember(b, Field(key, r.value));
    }
  }

  ghost predicate SameLookups(a: seq<Field>, b: seq<Field>) {
    forall k :: Lookup(a, k) == Lookup(b, k)
  }

  lemma LookupsDetermine(a: seq<Field>, b: seq<Field>)
    requires DistinctFieldKeys(a) && DistinctFieldKeys(b) && SameLookups(a, b)
    ensures multiset(a) == multiset(b)
  {
    DistinctSeparates(a);
    DistinctSeparates(b);
    forall f ensures f in a <==> f in b {
      assert Lookup(a, f.key) == Lookup(b, f.key);
      if f in a { LookupMember(a, f); }
      if f in b { LookupMember(b, f); }
    }
    NoDupPermutation(a, b);
  }

  // Sorted fields are equal exactly when every key finds the same value.
  lemma SortedFieldsExact(a: seq<Field>, b: seq<Field>)
    requires DistinctFieldKeys(a) && DistinctFieldKeys(b)
    ensures SortFields(a) == SortFields(b) <==> SameLookups(a, b)
  {
    SortFieldsFacts(a);
    SortFieldsFacts(b);
    if SortFields(a) == SortFields(b) {
      forall k ensures Lookup(a, k) == Lookup(b, k) {
        LookupPermuted(a, SortFields(a), k);
        LookupPermuted(b, SortFields(b), k);
      }
    }
    if SameLookups(a, b) {
      LookupsDetermine(a, b);
      SortFieldsUnique(a, b);
    }
  }
}
