// What a stable key tells of the value it is the key of. Keys are joined texts without closing marks: they are equal
// exactly when the values are spelled by the same marks and words.
module StableKeys {
  import opened Common
  import opened Ordering
  import opened Json
  import opened FieldOrder
  import opened StableSort
  import opened CanonicalText
  import opened StrategyIdentity

  // ---- marks and words ----

  // A scalar's own text, the opening of an array or an object, a key, and the two separators.
  datatype Mark = Word(text: string) | OpenArr | OpenObj | Key(key: string) | Bar | Amp

  function MarkText(t: Mark): (r: string)
    ensures !t.Word? ==> r != ""
  {
    match t
    case Word(text) => text
    case OpenArr => "a:"
    case OpenObj => "o:"
    case Key(key) => key + "="
    case Bar => "|"
    case Amp => "&"
  }

  function TextOf(ts: seq<Mark>): string {
    if ts == [] then "" else MarkText(ts[0]) + TextOf(ts[1..])
  }

  // How a value is spelled.
  function Spelling(v: Json): seq<Mark>
    decreases v, 0
  {
    match v
    case Arr(items) => [OpenArr] + SpellItems(items)
    case Obj(fields) => [OpenObj] + SpellFields(fields)
    case _ => [Word(StableKey(v))]
  }

  function SpellItems(items: seq<Json>): seq<Mark>
    decreases items, 1
  {
    if items == [] then []
    else if |items| == 1 then Spelling(items[0])
    else Spelling(items[0]) + ([Bar] + SpellItems(items[1..]))
  }

  function SpellField(f: Field): seq<Mark>
    decreases f, 0
  {
    [Key(f.key)] + Spelling(f.value)
  }

  function SpellFields(fields: seq<Field>): seq<Mark>
    decreases fields, 1
  {
    if fields == [] then []
    else if |fields| == 1 then SpellField(fields[0])
    else SpellField(fields[0]) + ([Amp] + SpellFields(fields[1..]))
  }

  predicate Separator(c: char) {
    c == '|' || c == '&'
  }

  predicate Separated(s: string) {
    forall i :: 0 <= i < |s| ==> !Separator(s[i])
  }

  // No text holds a separator, and no key a separator or an equals sign.
  ghost predicate Plain(v: Json) {
    match v
    case Str(s) => Separated(s)
    case Num(t) => Separated(t)
    case Arr(items) => forall x :: x in items ==> Plain(x)
    case Obj(fields) => forall f :: f in fields ==> Separated(f.key) && '=' !in f.key && Plain(f.value)
    case _ => true
  }

  // Objects list their keys in order, at every depth, as canonical forms do.
  ghost predicate Ordered(v: Json) {
    match v
    case Arr(items) => forall x :: x in items ==> Ordered(x)
    case Obj(fields) => SortedBy(FieldLe, fields) && forall f :: f in fields ==> Ordered(f.value)
    case _ => true
  }

  // ---- the key is the text of the spelling ----

  lemma {:induction false} TextConcat(a: seq<Mark>, b: seq<Mark>)
    ensures TextOf(a + b) == TextOf(a) + TextOf(b)
  {
    if a == [] {
      assert a + b == b;
    } else {
      TextConcat(a[1..], b);
      assert (a + b)[1..] == a[1..] + b;
      assert MarkText(a[0]) + (TextOf(a[1..]) + TextOf(b)) == (MarkText(a[0]) + TextOf(a[1..])) + TextOf(b);
    }
  }

  lemma TextOne(t: Mark)
    ensures TextOf([t]) == MarkText(t)
  {
    assert [t][1..] == [];
    assert MarkText(t) + "" == MarkText(t);
  }

  lemma {:induction false} TextTwo(t: Mark, b: seq<Mark>)
    ensures TextOf([t] + b) == MarkText(t) + TextOf(b)
  {
    TextOne(t);
    TextConcat([t], b);
  }

  lemma {:induction false} SpellingText(v: Json)
    requires Ordered(v)
    ensures TextOf(Spelling(v)) == StableKey(v)
    decreases v, 0
  {
    match v {
      case Arr(items) =>
        ItemsText(items);
        TextTwo(OpenArr, SpellItems(items));
      case Obj(fields) =>
        FieldsText(fields);
        KeyedInOrder(fields);
        TextTwo(OpenObj, SpellFields(fields));
      case _ => TextOne(Word(StableKey(v)));
    }
  }

  lemma {:induction false} ItemsText(items: seq<Json>)
    requires forall x :: x in items ==> Ordered(x)
    ensures TextOf(SpellItems(items)) == Join(StableItems(items), "|")
    decreases items, 1
  {
    if items != [] {
      SpellingText(items[0]);
      var keys := StableItems(items);
      assert keys[0] == StableKey(items[0]) && keys[1..] == StableItems(items[1..]);
      if |items| > 1 {
        ItemsText(items[1..]);
        assert |StableItems(items[1..])| > 0;
        TextTwo(Bar, SpellItems(items[1..]));
        TextConcat(Spelling(items[0]), [Bar] + SpellItems(items[1..]));
        JoinStep(keys[0], "|", Join(keys[1..], "|"));
      } else {
        assert items[1..] == [] && |keys| == 1;
      }
    }
  }

  lemma JoinStep(a: string, separator: string, rest: string)
    ensures a + (separator + rest) == a + separator + rest
  {
  }

  lemma {:induction false} FieldsText(fields: seq<Field>)
    requires forall f :: f in fields ==> Ordered(f.value)
    ensures TextOf(SpellFields(fields)) == Join(Assignments(StableFields(fields)), "&")
    decreases fields, 1
  {
    if fields != [] {
      var f, rest := fields[0], fields[1..];
      assert f in fields;
      SpellingText(f.value);
      TextTwo(Key(f.key), Spelling(f.value));
      var parts := Assignments(StableFields(fields));
      assert StableFields(fields)[1..] == StableFields(rest);
      assert parts[0] == f.key + "=" + StableKey(f.value) && parts[1..] == Assignments(StableFields(rest));
      if |fields| > 1 {
        FieldsText(rest);
        assert |Assignments(StableFields(rest))| > 0;
        TextTwo(Amp, SpellFields(rest));
        TextConcat(SpellField(f), [Amp] + SpellFields(rest));
        JoinStep(parts[0], "&", Join(parts[1..], "&"));
      } else {
        assert rest == [] && |parts| == 1;
      }
    }
  }

  lemma {:induction false} FieldsKeyed(fields: seq<Field>)
    ensures |StableFields(fields)| == |fields|
    ensures forall i :: 0 <= i < |fields| ==> StableFields(fields)[i].key == fields[i].key
  {
    if fields != [] { FieldsKeyed(fields[1..]); }
  }

  lemma {:induction false} KeyedInOrder(fields: seq<Field>)
    requires SortedBy(FieldLe, fields)
    ensures Sort(KeyedLe, StableFields(fields)) == StableFields(fields)
  {
    FieldsKeyed(fields);
    SortOfSorted(KeyedLe, StableFields(fields));
  }

  // ---- one text, one spelling ----

  // What may come next: a value, a key, or a separator; after an opening also nothing.
  datatype Mode = WantsValue | InArr | WantsKey | InObj | After | Stuck

  function Next(m: Mode, t: Mark): Mode {
    if t.Bar? && (m.InArr? || m.InObj? || m.After?) then WantsValue
    else if t.Amp? && (m.InArr? || m.InObj? || m.After?) then WantsKey
    else if t.Key? && (m.WantsKey? || m.InObj?) then WantsValue
    else if m.WantsValue? || m.InArr? then
      match t
      case Word(_) => After
      case OpenArr => InArr
      case OpenObj => InObj
      case _ => Stuck
    else Stuck
  }

  function End(m: Mode, ts: seq<Mark>): Mode
    decreases |ts|
  {
    if ts == [] then m else End(Next(m, ts[0]), ts[1..])
  }

  predicate WellMade(t: Mark) {
    match t
    case Word(text) => text != "" && text[0] in {' ', 's', 'n', 'b'} && Separated(text)
    case Key(key) => Separated(key) && '=' !in key
    case _ => true
  }

  predicate AllMade(ts: seq<Mark>) {
    forall i :: 0 <= i < |ts| ==> WellMade(ts[i])
  }

  lemma {:induction false} StuckStays(ts: seq<Mark>)
    ensures End(Stuck, ts) == Stuck
    decreases |ts|
  {
    if ts != [] { StuckStays(ts[1..]); }
  }

  lemma {:induction false} EndConcat(m: Mode, a: seq<Mark>, b: seq<Mark>)
    ensures End(m, a + b) == End(End(m, a), b)
    decreases |a|
  {
    if a == [] {
      assert a + b == b;
    } else {
      assert (a + b)[1..] == a[1..] + b;
      EndConcat(Next(m, a[0]), a[1..], b);
    }
  }

  // Empty, or a separator first.
  predicate Breaks(s: string) {
    s == "" || Separator(s[0])
  }

  // How far it is to the first of the stops.
  function Until<T(==)>(s: seq<T>, stops: set<T>): nat {
    if s == [] || s[0] in stops then 0 else 1 + Until(s[1..], stops)
  }

  lemma {:induction false} UntilStop<T>(a: seq<T>, r: seq<T>, stops: set<T>)
    requires (forall x :: x in a ==> x !in stops) && (r == [] || r[0] in stops)
    ensures Until(a + r, stops) == |a|
  {
    if a == [] {
      assert a + r == r;
    } else {
      assert (a + r)[1..] == a[1..] + r;
      UntilStop(a[1..], r, stops);
    }
  }

  lemma {:induction false} WordEnds(a: string, r: string, b: string, q: string)
    requires Separated(a) && Separated(b) && Breaks(r) && Breaks(q) && a + r == b + q
    ensures a == b && r == q
  {
    UntilStop(a, r, {'|', '&'});
    UntilStop(b, q, {'|', '&'});
    SamePrefix(a, r, b, q);
  }

  lemma SamePrefix(a: string, r: string, b: string, q: string)
    requires |a| == |b| && a + r == b + q
    ensures a == b && r == q
  {
    assert a == (a + r)[..|a|] && b == (b + q)[..|b|];
    assert r == (a + r)[|a|..] && q == (b + q)[|b|..];
  }

  lemma {:induction false} KeyEnds(a: string, r: string, b: string, q: string)
    requires '=' !in a && '=' !in b && a + "=" + r == b + "=" + q
    ensures a == b && r == q
  {
    UntilStop(a, "=" + r, {'='});
    UntilStop(b, "=" + q, {'='});
    assert a + ("=" + r) == a + "=" + r && b + ("=" + q) == b + "=" + q;
    SamePrefix(a, "=" + r, b, "=" + q);
    SamePrefix("=", r, "=", q);
  }

  lemma {:induction false} AfterBreaks(ts: seq<Mark>)
    requires End(After, ts) != Stuck
    ensures Breaks(TextOf(ts))
  {
    if ts != [] {
      if !ts[0].Bar? && !ts[0].Amp? { StuckStays(ts[1..]); }
    }
  }

  // The first character of a mark that may come next tells which kind of mark it is.
  lemma {:induction false} SameKind(m: Mode, t: Mark, r: string, u: Mark, q: string)
    requires WellMade(t) && WellMade(u) && Next(m, t) != Stuck && Next(m, u) != Stuck
    requires MarkText(t) + r == MarkText(u) + q
    ensures t.Word? == u.Word? && t.Key? == u.Key? && (!t.Word? && !t.Key? ==> t == u)
  {
    assert MarkText(t) != "" && MarkText(u) != "";
    assert MarkText(t)[0] == (MarkText(t) + r)[0] && (MarkText(u) + q)[0] == MarkText(u)[0];
  }

  lemma {:induction false} SameHead(m: Mode, t: Mark, r: string, u: Mark, q: string)
    requires WellMade(t) && WellMade(u) && Next(m, t) != Stuck && Next(m, u) != Stuck
    requires t.Word? ==> Breaks(r)
    requires u.Word? ==> Breaks(q)
    requires MarkText(t) + r == MarkText(u) + q
    ensures t == u && r == q
  {
    SameKind(m, t, r, u, q);
    if t.Word? {
      WordEnds(t.text, r, u.text, q);
    } else if t.Key? {
      KeyEnds(t.key, r, u.key, q);
    } else {
      SamePrefix(MarkText(t), r, MarkText(u), q);
    }
  }

  lemma {:induction false} OneSpelling(m: Mode, ts: seq<Mark>, us: seq<Mark>)
    requires AllMade(ts) && AllMade(us) && End(m, ts) != Stuck && End(m, us) != Stuck
    requires TextOf(ts) == TextOf(us)
    ensures ts == us
    decreases |ts| + |us|
  {
    if ts == [] || us == [] {
      NoText(ts);
      NoText(us);
    } else {
      var t, u, n := ts[0], us[0], Next(m, ts[0]);
      NotStuck(m, ts);
      NotStuck(m, us);
      if t.Word? { AfterBreaks(ts[1..]); }
      if u.Word? { AfterBreaks(us[1..]); }
      SameHead(m, t, TextOf(ts[1..]), u, TextOf(us[1..]));
      OneSpelling(n, ts[1..], us[1..]);
      assert ts == [t] + ts[1..] && us == [u] + us[1..];
    }
  }

  lemma {:induction false} NoText(ts: seq<Mark>)
    requires AllMade(ts)
    ensures TextOf(ts) == "" <==> ts == []
  {
    if ts != [] {
      assert WellMade(ts[0]) && MarkText(ts[0]) != "";
      assert |MarkText(ts[0]) + TextOf(ts[1..])| > 0;
    }
  }

  lemma {:induction false} NotStuck(m: Mode, ts: seq<Mark>)
    requires ts != [] && End(m, ts) != Stuck
    ensures Next(m, ts[0]) != Stuck && End(Next(m, ts[0]), ts[1..]) != Stuck
  {
    StuckStays(ts[1..]);
  }

  // ---- spellings are well made ----

  predicate Closable(m: Mode) {
    m.InArr? || m.InObj? || m.After?
  }

  ghost predicate Made(m: Mode, ts: seq<Mark>) {
    AllMade(ts) && Closable(End(m, ts))
  }

  lemma {:induction false} MadeThen(m: Mode, a: seq<Mark>, t: Mark, b: seq<Mark>)
    requires Made(m, a) && (t.Bar? || t.Amp?) && Made(if t.Bar? then WantsValue else WantsKey, b)
    ensures Made(m, a + ([t] + b))
  {
    EndConcat(m, a, [t] + b);
    assert ([t] + b)[0] == t && ([t] + b)[1..] == b;
  }

  lemma {:induction false} SpellingMade(v: Json, m: Mode)
    requires Plain(v) && (m.WantsValue? || m.InArr?)
    ensures Made(m, Spelling(v))
    decreases v, 0
  {
    match v {
      case Arr(items) =>
        ItemsMade(items, InArr);
        assert ([OpenArr] + SpellItems(items))[1..] == SpellItems(items);
      case Obj(fields) =>
        FieldsMade(fields, InObj);
        assert ([OpenObj] + SpellFields(fields))[1..] == SpellFields(fields);
      case _ =>
        WordMade(v);
        assert [Word(StableKey(v))][1..] == [];
    }
  }

  lemma WordMade(v: Json)
    requires Plain(v) && !v.Arr? && !v.Obj?
    ensures WellMade(Word(StableKey(v)))
  {
  }

  lemma {:induction false} ItemsMade(items: seq<Json>, m: Mode)
    requires (forall x :: x in items ==> Plain(x)) && (m.InArr? || (m.WantsValue? && items != []))
    ensures Made(m, SpellItems(items))
    decreases items, 1
  {
    if items != [] {
      SpellingMade(items[0], m);
      if |items| > 1 {
        ItemsMade(items[1..], WantsValue);
        MadeThen(m, Spelling(items[0]), Bar, SpellItems(items[1..]));
      }
    }
  }

  lemma {:induction false} FieldMade(f: Field, m: Mode)
    requires Separated(f.key) && '=' !in f.key && Plain(f.value) && (m.InObj? || m.WantsKey?)
    ensures Made(m, SpellField(f))
    decreases f, 0
  {
    SpellingMade(f.value, WantsValue);
    assert SpellField(f)[0] == Key(f.key) && SpellField(f)[1..] == Spelling(f.value);
  }

  lemma {:induction false} FieldsMade(fields: seq<Field>, m: Mode)
    requires forall f :: f in fields ==> Separated(f.key) && '=' !in f.key && Plain(f.value)
    requires m.InObj? || (m.WantsKey? && fields != [])
    ensures Made(m, SpellFields(fields))
    decreases fields, 1
  {
    if fields != [] {
      assert fields[0] in fields;
      FieldMade(fields[0], m);
      if |fields| > 1 {
        FieldsMade(fields[1..], WantsKey);
        MadeThen(m, SpellField(fields[0]), Amp, SpellFields(fields[1..]));
      }
    }
  }

  // Plain values in canonical order have the same stable key exactly when they have the same spelling.
  lemma {:induction false} KeysAreSpellings(x: Json, y: Json)
    requires Plain(x) && Plain(y) && Ordered(x) && Ordered(y)
    ensures StableKey(x) == StableKey(y) <==> Spelling(x) == Spelling(y)
  {
    SpellingText(x);
    SpellingText(y);
    if StableKey(x) == StableKey(y) {
      SpellingMade(x, WantsValue);
      SpellingMade(y, WantsValue);
      OneSpelling(WantsValue, Spelling(x), Spelling(y));
    }
  }

  // Spellings have no closing marks, so being plain is not enough: an array inside an array, or an object inside an
  // object, can share its key with another value.
  lemma {:induction false} NestedArraysCollide(b: Json, c: Json)
    requires Plain(b) && Plain(c) && Ordered(b) && Ordered(c)
    ensures var x, y := Arr([Arr([b]), c]), Arr([Arr([b, c])]);
      x != y && Plain(x) && Plain(y) && Ordered(x) && Ordered(y) && StableKey(x) == StableKey(y)
  {
    var one, both := [Arr([b]), c], [Arr([b, c])];
    assert |one| == 2 && |both| == 1;
    PlainItems([b]);
    PlainItems([b, c]);
    PlainItems(one);
    PlainItems(both);
    NestedSpelling(b, c);
    KeysAreSpellings(Arr(one), Arr(both));
  }

  lemma {:induction false} PlainItems(xs: seq<Json>)
    requires forall x :: x in xs ==> Plain(x) && Ordered(x)
    ensures Plain(Arr(xs)) && Ordered(Arr(xs))
  {
  }

  lemma {:induction false} NestedSpelling(b: Json, c: Json)
    ensures Spelling(Arr([Arr([b]), c])) == Spelling(Arr([Arr([b, c])]))
  {
    var one, both := Arr([b]), Arr([b, c]);
    var B, C := Spelling(b), Spelling(c);
    TwoItems(one, c);
    TwoItems(b, c);
    TwoItems(both, c);
    assert Spelling(Arr([one, c])) == [OpenArr] + (([OpenArr] + B) + ([Bar] + C));
    assert Spelling(Arr([both])) == [OpenArr] + ([OpenArr] + (B + ([Bar] + C)));
  }

  lemma TwoItems(a: Json, b: Json)
    ensures SpellItems([a, b]) == Spelling(a) + ([Bar] + Spelling(b)) && SpellItems([a]) == Spelling(a)
  {
    assert [a, b][1..] == [b];
  }

  lemma {:induction false} NestedObjectsCollide(b: Field, c: Field)
    requires b.key == "b" && c.key == "c" && Plain(Obj([b, c])) && Ordered(Obj([b, c]))
    ensures var x, y := Obj([Field("a", Obj([b])), c]), Obj([Field("a", Obj([b, c]))]);
      x != y && Plain(x) && Plain(y) && Ordered(x) && Ordered(y) && StableKey(x) == StableKey(y)
  {
    assert b in [b, c] && c in [b, c];
    var one, both := Field("a", Obj([b])), Field("a", Obj([b, c]));
    var x, y := Obj([one, c]), Obj([both]);
    var B, C := SpellField(b), SpellField(c);
    TwoFields(one, c);
    TwoFields(b, c);
    TwoFields(both, c);
    assert Spelling(x) == [OpenObj] + (([Key("a")] + ([OpenObj] + B)) + ([Amp] + C));
    assert Spelling(y) == [OpenObj] + ([Key("a")] + ([OpenObj] + (B + ([Amp] + C))));
    assert |[one, c]| == 2 && |[both]| == 1;
    assert StringLe("a", "c");
    KeysAreSpellings(x, y);
  }

  lemma TwoFields(f: Field, g: Field)
    ensures SpellFields([f, g]) == SpellField(f) + ([Amp] + SpellField(g)) && SpellFields([f]) == SpellField(f)
  {
    assert [f, g][1..] == [g];
  }

  // ---- values that their spelling determines ----

  // No array within an array and no object within an object.
  ghost predicate Shallow(v: Json, arrays: bool, objects: bool) {
    match v
    case Arr(items) => arrays && forall x :: x in items ==> Shallow(x, false, objects)
    case Obj(fields) => objects && forall f :: f in fields ==> Shallow(f.value, arrays, false)
    case _ => true
  }

  lemma {:induction false} NoBars(v: Json, objects: bool)
    requires Shallow(v, false, objects)
    ensures Bar !in Spelling(v)
    decreases v, 0
  {
    if v.Obj? { NoBarsInFields(v.fields); }
  }

  lemma {:induction false} NoBarsInFields(fields: seq<Field>)
    requires forall f :: f in fields ==> Shallow(f.value, false, false)
    ensures Bar !in SpellFields(fields)
    decreases fields, 1
  {
    if fields != [] {
      assert fields[0] in fields;
      NoBars(fields[0].value, false);
      if |fields| > 1 { NoBarsInFields(fields[1..]); }
    }
  }

  lemma {:induction false} NoAmps(v: Json, arrays: bool)
    requires Shallow(v, arrays, false)
    ensures Amp !in Spelling(v)
    decreases v, 0
  {
    if v.Arr? { NoAmpsInItems(v.items); }
  }

  lemma {:induction false} NoAmpsInItems(items: seq<Json>)
    requires forall x :: x in items ==> Shallow(x, false, false)
    ensures Amp !in SpellItems(items)
    decreases items, 1
  {
    if items != [] {
      NoAmps(items[0], false);
      if |items| > 1 { NoAmpsInItems(items[1..]); }
    }
  }

  // The part before the first separator.
  lemma {:induction false} SplitOnce(a: seq<Mark>, r: seq<Mark>, b: seq<Mark>, q: seq<Mark>, t: Mark)
    requires t !in a && t !in b && a + ([t] + r) == b + ([t] + q)
    ensures a == b && r == q
  {
    var s, s' := a + ([t] + r), b + ([t] + q);
    UntilStop(a, [t] + r, {t});
    UntilStop(b, [t] + q, {t});
    assert a == s[..|a|] && b == s'[..|b|];
    assert r == s[|a| + 1..] && q == s'[|b| + 1..];
  }

  lemma NotSplit(a: seq<Mark>, b: seq<Mark>, q: seq<Mark>, t: Mark)
    requires t !in a
    ensures a != b + ([t] + q)
  {
    assert (b + ([t] + q))[|b|] == t;
  }

  lemma SpelledSome(v: Json)
    ensures Spelling(v) != []
  {
  }

  lemma WordTells(x: Json, y: Json)
    requires !x.Arr? && !x.Obj? && !y.Arr? && !y.Obj? && StableKey(x) == StableKey(y)
    ensures x == y
  {
    assert StableKey(x)[0] == StableKey(y)[0];
    match (x, y) {
      case (Str(s), Str(t)) => SamePrefix("s:", s, "s:", t);
      case (Num(s), Num(t)) => SamePrefix("n:", s, "n:", t);
      case (Bool(b), Bool(c)) => assert "b:true"[2] == 't' && "b:false"[2] == 'f';
      case _ =>
    }
  }

  lemma {:induction false} SpellingTells(x: Json, y: Json, arrays: bool, objects: bool)
    requires Shallow(x, arrays, objects) && Shallow(y, arrays, objects) && Spelling(x) == Spelling(y)
    ensures x == y
    decreases x, 0
  {
    assert Spelling(x)[0] == Spelling(y)[0];
    match x {
      case Arr(xs) =>
        assert y.Arr?;
        assert SpellItems(xs) == Spelling(x)[1..] && SpellItems(y.items) == Spelling(y)[1..];
        ItemsTell(xs, y.items, objects);
      case Obj(fs) =>
        assert y.Obj?;
        assert SpellFields(fs) == Spelling(x)[1..] && SpellFields(y.fields) == Spelling(y)[1..];
        FieldsTell(fs, y.fields, arrays);
      case _ =>
        WordTells(x, y);
    }
  }

  lemma {:induction false} ItemsTell(xs: seq<Json>, ys: seq<Json>, objects: bool)
    requires forall x :: x in xs || x in ys ==> Shallow(x, false, objects)
    requires SpellItems(xs) == SpellItems(ys)
    ensures xs == ys
    decreases xs, 1
  {
    if xs == [] || ys == [] {
      if xs != [] { SpelledSome(xs[0]); }
      if ys != [] { SpelledSome(ys[0]); }
    } else {
      var a, b := Spelling(xs[0]), Spelling(ys[0]);
      NoBars(xs[0], objects);
      NoBars(ys[0], objects);
      if |xs| == 1 && |ys| > 1 {
        NotSplit(a, b, SpellItems(ys[1..]), Bar);
      } else if |xs| > 1 && |ys| == 1 {
        NotSplit(b, a, SpellItems(xs[1..]), Bar);
      } else if |xs| > 1 {
        SplitOnce(a, SpellItems(xs[1..]), b, SpellItems(ys[1..]), Bar);
        ItemsTell(xs[1..], ys[1..], objects);
      }
      SpellingTells(xs[0], ys[0], false, objects);
      assert xs == [xs[0]] + xs[1..] && ys == [ys[0]] + ys[1..];
    }
  }

  lemma {:induction false} FieldTells(f: Field, g: Field, arrays: bool)
    requires Shallow(f.value, arrays, false) && Shallow(g.value, arrays, false) && SpellField(f) == SpellField(g)
    ensures f == g
    decreases f, 0
  {
    assert SpellField(f)[0] == SpellField(g)[0];
    assert Spelling(f.value) == SpellField(f)[1..] && Spelling(g.value) == SpellField(g)[1..];
    SpellingTells(f.value, g.value, arrays, false);
  }

  lemma {:induction false} FieldsTell(fs: seq<Field>, gs: seq<Field>, arrays: bool)
    requires forall f :: f in fs || f in gs ==> Shallow(f.value, arrays, false)
    requires SpellFields(fs) == SpellFields(gs)
    ensures fs == gs
    decreases fs, 1
  {
    if fs != [] && gs != [] {
      assert fs[0] in fs && gs[0] in gs;
      var a, b := SpellField(fs[0]), SpellField(gs[0]);
      NoAmps(fs[0].value, arrays);
      NoAmps(gs[0].value, arrays);
      if |fs| == 1 && |gs| > 1 {
        NotSplit(a, b, SpellFields(gs[1..]), Amp);
      } else if |fs| > 1 && |gs| == 1 {
        NotSplit(b, a, SpellFields(fs[1..]), Amp);
      } else if |fs| > 1 {
        SplitOnce(a, SpellFields(fs[1..]), b, SpellFields(gs[1..]), Amp);
        FieldsTell(fs[1..], gs[1..], arrays);
      }
      FieldTells(fs[0], gs[0], arrays);
      assert fs == [fs[0]] + fs[1..] && gs == [gs[0]] + gs[1..];
    }
  }

  // On plain values without such nesting the stable key tells everything.
  lemma {:induction false} KeyTells(x: Json, y: Json)
    requires Plain(x) && Plain(y) && Ordered(x) && Ordered(y) && Shallow(x, true, true) && Shallow(y, true, true)
    ensures StableKey(x) == StableKey(y) <==> x == y
  {
    KeysAreSpellings(x, y);
    if StableKey(x) == StableKey(y) { SpellingTells(x, y, true, true); }
  }

  // ---- what this means for arrays ----

  lemma {:induction false} FormOrdered(volatile: set<string>, v: Json)
    requires WellFormed(v)
    ensures Ordered(Canonicalize(volatile, v))
    decreases v, 0
  {
    match v {
      case Arr(items) =>
        ItemFormsOrdered(volatile, items);
        SortElems(KeyLe(StableKey), CanonicalItems(volatile, items));
      case Obj(fields) =>
        FieldFormsOrdered(volatile, fields);
        CanonicalKeys(volatile, fields);
        SortFieldsFacts(CanonicalFields(volatile, fields));
      case _ =>
    }
  }

  lemma {:induction false} ItemFormsOrdered(volatile: set<string>, items: seq<Json>)
    requires forall x :: x in items ==> WellFormed(x)
    ensures forall x :: x in CanonicalItems(volatile, items) ==> Ordered(x)
    decreases items, 1
  {
    if items != [] {
      FormOrdered(volatile, items[0]);
      ItemFormsOrdered(volatile, items[1..]);
    }
  }

  lemma {:induction false} FieldFormsOrdered(volatile: set<string>, fields: seq<Field>)
    requires forall f :: f in fields ==> WellFormed(f.value)
    ensures forall f :: f in CanonicalFields(volatile, fields) ==> Ordered(f.value)
    decreases fields, 1
  {
    if fields != [] {
      assert fields[0] in fields;
      FormOrdered(volatile, fields[0].value);
      FieldFormsOrdered(volatile, fields[1..]);
    }
  }

  ghost predicate Telling(v: Json) {
    Plain(v) && Shallow(v, true, true)
  }

  // An array of values with different forms, each plain and not nested in its own kind, keeps its form in any order.
  lemma {:induction false} ReorderedPlain(volatile: set<string>, xs: seq<Json>, ys: seq<Json>)
    requires multiset(xs) == multiset(ys) && forall x :: x in xs ==> WellFormed(x)
    requires NoDup(CanonicalItems(volatile, xs)) && forall c :: c in CanonicalItems(volatile, xs) ==> Telling(c)
    ensures Canonicalize(volatile, Arr(xs)) == Canonicalize(volatile, Arr(ys))
  {
    var cs := CanonicalItems(volatile, xs);
    ItemFormsOrdered(volatile, xs);
    forall i, j | 0 <= i < j < |cs| ensures StableKey(cs[i]) != StableKey(cs[j]) {
      assert cs[i] in cs && cs[j] in cs;
      KeyTells(cs[i], cs[j]);
    }
    ReorderedArray(volatile, xs, ys);
  }
}
