// Canonical JSON text of the journal: object keys sorted at every depth.
module CanonicalText {
  import opened Common
  import opened Ordering
  import opened Json
  import opened JsonNesting
  import opened FieldOrder

  // ---- the printer ----

  datatype Keyed = Keyed(key: string, text: string)

  predicate KeyedLe(a: Keyed, b: Keyed) {
    StringLe(a.key, b.key)
  }

  function Join(parts: seq<string>, separator: string): string {
    if parts == [] then ""
    else if |parts| == 1 then parts[0]
    else parts[0] + separator + Join(parts[1..], separator)
  }

  function Pairs(keyed: seq<Keyed>): seq<string> {
    if keyed == [] then [] else [Quote(keyed[0].key) + ":" + keyed[0].text] + Pairs(keyed[1..])
  }

  function Canonical(v: Json): string
    decreases v, 0
  {
    match v
    case Arr(items) => "[" + Join(CanonicalTexts(items), ",") + "]"
    case Obj(fields) => "{" + Join(Pairs(Sort(KeyedLe, KeyedFields(fields))), ",") + "}"
    case _ => Print(v)
  }

  function CanonicalTexts(items: seq<Json>): seq<string>
    decreases items, 1
  {
    if items == [] then [] else [Canonical(items[0])] + CanonicalTexts(items[1..])
  }

  function KeyedFields(fields: seq<Field>): seq<Keyed>
    decreases fields, 1
  {
    if fields == [] then []
    else [Keyed(fields[0].key, Canonical(fields[0].value))] + KeyedFields(fields[1..])
  }

  // ---- the value it prints ----

  function SortKeys(v: Json): Json
    decreases v, 0
  {
    match v
    case Arr(items) => Arr(SortItems(items))
    case Obj(fields) => Obj(SortFields(SortValues(fields)))
    case _ => v
  }

  function SortItems(items: seq<Json>): (r: seq<Json>)
    ensures |r| == |items|
    decreases items, 1
  {
    if items == [] then [] else [SortKeys(items[0])] + SortItems(items[1..])
  }

  function SortValues(fields: seq<Field>): (r: seq<Field>)
    ensures |r| == |fields| && forall i :: 0 <= i < |r| ==> r[i].key == fields[i].key
    decreases fields, 1
  {
    if fields == [] then []
    else [Field(fields[0].key, SortKeys(fields[0].value))] + SortValues(fields[1..])
  }

  function Printed(f: Field): Keyed {
    Keyed(f.key, Print(f.value))
  }

  function PrintedAll(fields: seq<Field>): seq<Keyed> {
    if fields == [] then [] else [Printed(fields[0])] + PrintedAll(fields[1..])
  }

  lemma {:induction false} InsertPrinted(f: Field, fields: seq<Field>)
    ensures PrintedAll(Insert(FieldLe, f, fields)) == Insert(KeyedLe, Printed(f), PrintedAll(fields))
  {
    if fields != [] && !FieldLe(f, fields[0]) {
      InsertPrinted(f, fields[1..]);
    }
  }

  lemma {:induction false} SortPrinted(fields: seq<Field>)
    ensures PrintedAll(SortFields(fields)) == Sort(KeyedLe, PrintedAll(fields))
  {
    if fields != [] {
      SortPrinted(fields[1..]);
      InsertPrinted(fields[0], SortFields(fields[1..]));
    }
  }

  lemma {:induction false} JoinPrinted(fields: seq<Field>)
    requires fields != []
    ensures Join(Pairs(PrintedAll(fields)), ",") == PrintFields(fields)
  {
    var parts := Pairs(PrintedAll(fields));
    assert parts[0] == Quote(fields[0].key) + ":" + Print(fields[0].value);
    assert parts[1..] == Pairs(PrintedAll(fields[1..]));
    if |fields| > 1 {
      JoinPrinted(fields[1..]);
      assert parts[1..] != [];
    } else {
      assert PrintedAll(fields[1..]) == [];
    }
  }

  lemma ObjectPrints(fields: seq<Field>)
    requires KeyedFields(fields) == PrintedAll(SortValues(fields))
    ensures Canonical(Obj(fields)) == Print(SortKeys(Obj(fields)))
  {
    var sorted := SortFields(SortValues(fields));
    SortPrinted(SortValues(fields));
    if sorted != [] {
      JoinPrinted(sorted);
    }
  }

  // The canonical text is the ordinary text of the value with its keys sorted at every depth.
  lemma {:induction false} CanonicalPrints(v: Json)
    ensures Canonical(v) == Print(SortKeys(v))
    decreases v, 0
  {
    match v {
      case Arr(items) =>
        if items != [] { CanonicalTextsPrint(items); }
      case Obj(fields) =>
        KeyedFieldsPrint(fields);
        ObjectPrints(fields);
      case _ =>
    }
  }

  lemma {:induction false} CanonicalTextsPrint(items: seq<Json>)
    requires items != []
    ensures CanonicalTexts(items) != [] && Join(CanonicalTexts(items), ",") == PrintItems(SortItems(items))
    decreases items, 1
  {
    CanonicalPrints(items[0]);
    if |items| > 1 {
      CanonicalTextsPrint(items[1..]);
    }
  }

  lemma {:induction false} KeyedFieldsPrint(fields: seq<Field>)
    ensures KeyedFields(fields) == PrintedAll(SortValues(fields))
    decreases fields, 1
  {
    if fields != [] {
      CanonicalPrints(fields[0].value);
      KeyedFieldsPrint(fields[1..]);
    }
  }

  // ---- sorting keys keeps values well formed, and is idempotent ----

  lemma {:induction false} SortKeysWellFormed(v: Json)
    requires WellFormed(v)
    ensures WellFormed(SortKeys(v))
    decreases v, 0
  {
    match v {
      case Arr(items) => SortItemsWellFormed(items);
      case Obj(fields) =>
        SortValuesWellFormed(fields);
        SortFieldsFacts(SortValues(fields));
      case _ =>
    }
  }

  lemma {:induction false} SortItemsWellFormed(items: seq<Json>)
    requires forall x :: x in items ==> WellFormed(x)
    ensures forall x :: x in SortItems(items) ==> WellFormed(x)
    decreases items, 1
  {
    if items != [] {
      SortKeysWellFormed(items[0]);
      SortItemsWellFormed(items[1..]);
    }
  }

  lemma {:induction false} SortValuesWellFormed(fields: seq<Field>)
    requires forall f :: f in fields ==> WellFormed(f.value)
    ensures forall f :: f in SortValues(fields) ==> WellFormed(f.value)
    decreases fields, 1
  {
    if fields != [] {
      assert fields[0] in fields;
      SortKeysWellFormed(fields[0].value);
      SortValuesWellFormed(fields[1..]);
    }
  }

  lemma {:induction false} InsertValues(f: Field, fields: seq<Field>)
    ensures SortValues(Insert(FieldLe, f, fields)) ==
      Insert(FieldLe, Field(f.key, SortKeys(f.value)), SortValues(fields))
  {
    if fields != [] && !FieldLe(f, fields[0]) {
      InsertValues(f, fields[1..]);
    }
  }

  lemma {:induction false} SortValuesCommutes(fields: seq<Field>)
    ensures SortValues(SortFields(fields)) == SortFields(SortValues(fields))
  {
    if fields != [] {
      SortValuesCommutes(fields[1..]);
      InsertValues(fields[0], SortFields(fields[1..]));
    }
  }

  lemma {:induction false} SortKeysIdempotent(v: Json)
    requires WellFormed(v)
    ensures SortKeys(SortKeys(v)) == SortKeys(v)
    decreases v, 0
  {
    match v {
      case Arr(items) => SortItemsIdempotent(items);
      case Obj(fields) =>
        SortValuesIdempotent(fields);
        SortValuesCommutes(SortValues(fields));
        SortFieldsIdempotent(SortValues(fields));
      case _ =>
    }
  }

  lemma {:induction false} SortItemsIdempotent(items: seq<Json>)
    requires forall x :: x in items ==> WellFormed(x)
    ensures SortItems(SortItems(items)) == SortItems(items)
    decreases items, 1
  {
    if items != [] {
      SortKeysIdempotent(items[0]);
      SortItemsIdempotent(items[1..]);
    }
  }

  lemma {:induction false} SortValuesIdempotent(fields: seq<Field>)
    requires forall f :: f in fields ==> WellFormed(f.value)
    ensures SortValues(SortValues(fields)) == SortValues(fields)
    decreases fields, 1
  {
    if fields != [] {
      assert fields[0] in fields;
      SortKeysIdempotent(fields[0].value);
      SortValuesIdempotent(fields[1..]);
    }
  }

  // ---- reading canonical text back ----

  // Parsing canonical text gives the value back up to key order.
  lemma CanonicalBack(v: Json)
    requires WellFormed(v)
    ensures Parse(Canonical(v)) == Some(SortKeys(v))
  {
    CanonicalPrints(v);
    SortKeysWellFormed(v);
    RoundTrip(SortKeys(v));
  }

  // Canonical text is equal exactly for values that are equal up to key order.
  lemma CanonicalDecides(v: Json, w: Json)
    requires WellFormed(v) && WellFormed(w)
    ensures Canonical(v) == Canonical(w) <==> SortKeys(v) == SortKeys(w)
  {
    CanonicalPrints(v);
    CanonicalPrints(w);
    CanonicalBack(v);
    CanonicalBack(w);
  }

  lemma CanonicalOneLine(v: Json)
    requires WellFormed(v)
    ensures '\n' !in Canonical(v) && Canonical(v) != ""
  {
    CanonicalPrints(v);
    SortKeysWellFormed(v);
    PrintOneLine(SortKeys(v));
    PrintStart(SortKeys(v));
  }

  lemma CanonicalBrace(fields: seq<Field>)
    ensures Canonical(Obj(fields)) != "" && Canonical(Obj(fields))[0] == '{'
  {
  }

  // No proper prefix of the canonical text of an object parses.
  lemma CanonicalTorn(fields: seq<Field>, n: nat)
    requires WellFormed(Obj(fields)) && n < |Canonical(Obj(fields))|
    ensures Parse(Canonical(Obj(fields))[..n]) == None
  {
    CanonicalPrints(Obj(fields));
    SortKeysWellFormed(Obj(fields));
    TornObjectFails(SortFields(SortValues(fields)), n);
  }

  // No text that begins with a brace parses when the canonical text of an object is glued to its end.
  lemma CanonicalGlued(text: string, fields: seq<Field>)
    requires WellFormed(Obj(fields)) && text != "" && text[0] == '{'
    ensures Parse(text + Canonical(Obj(fields))) == None
  {
    CanonicalPrints(Obj(fields));
    SortKeysWellFormed(Obj(fields));
    GluedObjectFails(text, SortFields(SortValues(fields)));
  }
}
