// The append-only journal: stamped and hashed entries, one line each, read back after any crash.
// The hash function, the clock and the file are parameters or plain text; the file holds characters.
module TransactionLogs {
  import opened Common
  import opened Json
  import opened FieldOrder
  import opened CanonicalText
  import opened LineFraming

  // ---- entries ----

  const UNHASHED: set<string> := {"hash", "_corrupt", "_rawLine"}

  function EntryHash(h: string -> string, fields: seq<Field>): string {
    h(Canonical(Obj(Without(fields, UNHASHED))))
  }

  // { ...base, ...more }
  function Spread(base: seq<Field>, more: seq<Field>): seq<Field>
    decreases |more|
  {
    if more == [] then base else Spread(SetField(base, more[0].key, more[0].value), more[1..])
  }

  // The caller's fields override seq and ts; the hash is set last.
  function Stamp(h: string -> string, sequence: nat, ts: string, op: seq<Field>): seq<Field> {
    var entry := Spread([Field("seq", Num(Decimal(sequence))), Field("ts", Str(ts))], op);
    SetField(entry, "hash", Str(EntryHash(h, entry)))
  }

  ghost predicate Sealed(h: string -> string, fields: seq<Field>) {
    WellFormed(Obj(fields)) && Lookup(fields, "hash") == Some(Str(EntryHash(h, fields)))
  }

  ghost predicate AllSealed(h: string -> string, entries: seq<seq<Field>>) {
    forall e :: e in entries ==> Sealed(h, e)
  }

  lemma {:induction false} SetFieldFacts(fields: seq<Field>, key: string, value: Json)
    requires DistinctFieldKeys(fields)
    ensures var r := SetField(fields, key, value);
      && DistinctFieldKeys(r)
      && (forall f :: f in r <==> f == Field(key, value) || (f in fields && f.key != key))
  {
    if fields != [] && fields[0].key != key {
      SetFieldFacts(fields[1..], key, value);
      assert forall f :: f in fields <==> f == fields[0] || f in fields[1..];
    } else if fields != [] {
      assert forall f :: f in fields <==> f == fields[0] || f in fields[1..];
    }
  }

  lemma {:induction false} SpreadWellFormed(base: seq<Field>, more: seq<Field>)
    requires WellFormed(Obj(base)) && forall f :: f in more ==> WellFormed(f.value)
    ensures WellFormed(Obj(Spread(base, more)))
    decreases |more|
  {
    if more != [] {
      SetFieldFacts(base, more[0].key, more[0].value);
      assert more[0] in more;
      SpreadWellFormed(SetField(base, more[0].key, more[0].value), more[1..]);
    }
  }

  lemma {:induction false} DropAllDigits(s: string)
    requires forall i :: 0 <= i < |s| ==> Digit(s[i])
    ensures DropDigits(s) == ""
  {
    if s != "" { DropAllDigits(s[1..]); }
  }

  lemma DecimalIsNumber(n: nat)
    ensures IsNumber(Decimal(n))
  {
    var s := Decimal(n);
    DropAllDigits(s);
    if n == 0 { assert s == "0"; }
  }

  lemma {:induction false} WithoutSetField(fields: seq<Field>, key: string, value: Json, keys: set<string>)
    requires key in keys
    ensures Without(SetField(fields, key, value), keys) == Without(fields, keys)
  {
    if fields != [] && fields[0].key != key {
      WithoutSetField(fields[1..], key, value, keys);
    }
  }

  // Every appended entry is well formed and carries the hash of its other fields.
  lemma StampSealed(h: string -> string, sequence: nat, ts: string, op: seq<Field>)
    requires WellFormed(Obj(op))
    ensures Sealed(h, Stamp(h, sequence, ts, op))
  {
    var base := [Field("seq", Num(Decimal(sequence))), Field("ts", Str(ts))];
    DecimalIsNumber(sequence);
    SpreadWellFormed(base, op);
    var entry := Spread(base, op);
    var seal := Str(EntryHash(h, entry));
    SetFieldFacts(entry, "hash", seal);
    WithoutSetField(entry, "hash", seal, UNHASHED);
    LookupMember(SetField(entry, "hash", seal), Field("hash", seal));
  }

  // ---- what an entry holds ----

  lemma {:induction false} LookupSet(fields: seq<Field>, key: string, value: Json, k: string)
    ensures Lookup(SetField(fields, key, value), k) == if k == key then Some(value) else Lookup(fields, k)
  {
    if fields != [] && fields[0].key != key {
      LookupSet(fields[1..], key, value, k);
    }
  }

  // Later fields win.
  lemma {:induction false} LookupSpread(base: seq<Field>, more: seq<Field>, k: string)
    requires DistinctFieldKeys(more)
    ensures Lookup(Spread(base, more), k) == if Lookup(more, k).Some? then Lookup(more, k) else Lookup(base, k)
    decreases |more|
  {
    if more != [] {
      LookupSpread(SetField(base, more[0].key, more[0].value), more[1..], k);
      LookupSet(base, more[0].key, more[0].value, k);
      assert more[0].key == k ==> forall f :: f in more[1..] ==> f.key != k;
    }
  }

  ghost predicate Names(fields: seq<Field>, key: string) {
    exists f :: f in fields && f.key == key
  }

  // The entry holds the operation's own fields, then the count and the time unless the operation names them, then
  // the hash, and nothing else.
  ghost predicate Carries(entry: seq<Field>, sequence: nat, ts: string, op: seq<Field>) {
    && (forall f :: f in op && f.key != "hash" ==> f in entry)
    && (!Names(op, "seq") ==> Field("seq", Num(Decimal(sequence))) in entry)
    && (!Names(op, "ts") ==> Field("ts", Str(ts)) in entry)
    && (forall f :: f in entry ==>
        || f in op || f.key == "hash"
        || (f == Field("seq", Num(Decimal(sequence))) && !Names(op, "seq"))
        || (f == Field("ts", Str(ts)) && !Names(op, "ts")))
  }

  lemma {:induction false} LookupStamp(h: string -> string, sequence: nat, ts: string, op: seq<Field>, k: string)
    requires DistinctFieldKeys(op) && k != "hash"
    ensures Lookup(Stamp(h, sequence, ts, op), k) ==
      if Lookup(op, k).Some? then Lookup(op, k)
      else if k == "seq" then Some(Num(Decimal(sequence)))
      else if k == "ts" then Some(Str(ts))
      else None
  {
    var base := [Field("seq", Num(Decimal(sequence))), Field("ts", Str(ts))];
    var entry := Spread(base, op);
    LookupSpread(base, op, k);
    LookupSet(entry, "hash", Str(EntryHash(h, entry)), k);
    assert base[1..] == [Field("ts", Str(ts))] && base[1..][1..] == [];
    assert Lookup(base[1..], k) == if k == "ts" then Some(Str(ts)) else None;
  }

  lemma {:induction false} StampCarries(h: string -> string, sequence: nat, ts: string, op: seq<Field>)
    requires WellFormed(Obj(op))
    ensures Carries(Stamp(h, sequence, ts, op), sequence, ts, op)
  {
    var entry := Stamp(h, sequence, ts, op);
    StampSealed(h, sequence, ts, op);
    forall f | f in op && f.key != "hash" ensures f in entry {
      LookupStamp(h, sequence, ts, op, f.key);
      LookupMember(op, f);
    }
    LookupStamp(h, sequence, ts, op, "seq");
    LookupStamp(h, sequence, ts, op, "ts");
    forall f | f in entry && f.key != "hash"
      ensures f in op || (f == Field("seq", Num(Decimal(sequence))) && !Names(op, "seq"))
        || (f == Field("ts", Str(ts)) && !Names(op, "ts"))
    {
      LookupMember(entry, f);
      LookupStamp(h, sequence, ts, op, f.key);
    }
  }

  // ---- reading one line ----

  // Whether a numeral is zero: no nonzero digit before its exponent.
  predicate ZeroText(t: string) {
    t == "" || t[0] == 'e' || t[0] == 'E' || (!('1' <= t[0] <= '9') && ZeroText(t[1..]))
  }

  predicate Truthy(v: Json) {
    match v
    case Null => false
    case Bool(b) => b
    case Num(t) => !ZeroText(t)
    case Str(s) => s != ""
    case _ => true
  }

  function Garbled(line: string): Json {
    Obj([Field("_corrupt", Bool(true)), Field("_rawLine", Str(line))])
  }

  predicate HashMismatch(h: string -> string, v: Json) {
    && v.Obj?
    && var claimed := Lookup(v.fields, "hash");
       claimed.Some? && Truthy(claimed.value) && claimed.value != Str(EntryHash(h, v.fields))
  }

  function ReadLine(h: string -> string, line: string): Json {
    match Parse(line)
    case None => Garbled(line)
    case Some(v) => if HashMismatch(h, v) then Obj(SetField(v.fields, "_corrupt", Bool(true))) else v
  }

  lemma {:induction false} ZeroExactly(t: string)
    ensures ZeroText(t) <==>
      forall i :: 0 <= i < |t| && '1' <= t[i] <= '9' ==> exists j :: 0 <= j < i && (t[j] == 'e' || t[j] == 'E')
  {
    if t != "" && t[0] != 'e' && t[0] != 'E' {
      var tail := t[1..];
      ZeroExactly(tail);
      assert forall i :: 0 < i < |t| ==> tail[i - 1] == t[i];
      if ZeroText(t) {
        forall i | 0 <= i < |t| && '1' <= t[i] <= '9' ensures exists j :: 0 <= j < i && (t[j] == 'e' || t[j] == 'E') {
          var j :| 0 <= j < i - 1 && (tail[j] == 'e' || tail[j] == 'E');
          assert t[j + 1] == tail[j];
        }
      }
      if forall i :: 0 <= i < |t| && '1' <= t[i] <= '9' ==> exists j :: 0 <= j < i && (t[j] == 'e' || t[j] == 'E') {
        forall i | 0 <= i < |tail| && '1' <= tail[i] <= '9'
          ensures exists j :: 0 <= j < i && (tail[j] == 'e' || tail[j] == 'E')
        {
          assert t[i + 1] == tail[i];
          var j :| 0 <= j < i + 1 && (t[j] == 'e' || t[j] == 'E');
          assert tail[j - 1] == t[j];
        }
      }
    }
  }

  // Nothing, false, the empty text and a numeral without a nonzero digit before its exponent.
  predicate Falsy(v: Json) {
    || v == Null || v == Bool(false) || v == Str("")
    || (v.Num? && forall i :: 0 <= i < |v.text| && '1' <= v.text[i] <= '9' ==>
          exists j :: 0 <= j < i && (v.text[j] == 'e' || v.text[j] == 'E'))
  }

  lemma {:induction false} TruthyExactly(v: Json)
    ensures Truthy(v) <==> !Falsy(v)
  {
    if v.Num? { ZeroExactly(v.text); }
  }

  // A line that parses is marked exactly when it carries a hash that is not the hash of its other fields. Nothing but
  // the mark changes; an empty hash is none.
  lemma {:induction false} MarkedExactly(h: string -> string, line: string)
    requires Parse(line).Some?
    ensures var v, r := Parse(line).value, ReadLine(h, line);
      if v.Obj? && Lookup(v.fields, "hash").Some? && !Falsy(Lookup(v.fields, "hash").value)
        && Lookup(v.fields, "hash") != Some(Str(h(Canonical(Obj(Without(v.fields, UNHASHED))))))
      then
        && r.Obj? && Lookup(r.fields, "_corrupt") == Some(Bool(true))
        && forall k :: k != "_corrupt" ==> Lookup(r.fields, k) == Lookup(v.fields, k)
      else r == v
  {
    var v := Parse(line).value;
    if v.Obj? {
      if Lookup(v.fields, "hash").Some? { TruthyExactly(Lookup(v.fields, "hash").value); }
      forall k ensures Lookup(SetField(v.fields, "_corrupt", Bool(true)), k)
        == if k == "_corrupt" then Some(Bool(true)) else Lookup(v.fields, k)
      {
        LookupSet(v.fields, "_corrupt", Bool(true), k);
      }
    }
  }

  // A line that does not parse is marked and kept.
  lemma {:induction false} GarbledKept(line: string)
    ensures Garbled(line).Obj? && IsCorrupt(Garbled(line))
    ensures Lookup(Garbled(line).fields, "_corrupt") == Some(Bool(true))
    ensures Lookup(Garbled(line).fields, "_rawLine") == Some(Str(line))
  {
    var f := Garbled(line).fields;
    assert f[1..] == [Field("_rawLine", Str(line))];
  }

  predicate IsCorrupt(v: Json) {
    v.Obj? && Lookup(v.fields, "_corrupt").Some? && Truthy(Lookup(v.fields, "_corrupt").value)
  }

  lemma {:induction false} SortValuesWithout(fields: seq<Field>, keys: set<string>)
    ensures SortValues(Without(fields, keys)) == Without(SortValues(fields), keys)
  {
    if fields != [] {
      var f := Field(fields[0].key, SortKeys(fields[0].value));
      var rest := Without(fields[1..], keys);
      SortValuesWithout(fields[1..], keys);
      assert SortValues(fields) == [f] + SortValues(fields[1..]);
      if f.key !in keys {
        assert Without(fields, keys) == [fields[0]] + rest && ([fields[0]] + rest)[1..] == rest;
      }
    }
  }

  lemma {:induction false} LookupSortValues(fields: seq<Field>, key: string)
    ensures Lookup(fields, key).None? <==> Lookup(SortValues(fields), key).None?
    ensures Lookup(fields, key).Some? ==>
      Lookup(SortValues(fields), key) == Some(SortKeys(Lookup(fields, key).value))
  {
    if fields != [] && fields[0].key != key { LookupSortValues(fields[1..], key); }
  }

  // Sorting keys changes what is found under a key only by sorting keys inside it.
  lemma LookupSorted(fields: seq<Field>, key: string)
    requires WellFormed(Obj(fields))
    ensures var r := Lookup(SortKeys(Obj(fields)).fields, key);
      r == if Lookup(fields, key).None? then None else Some(SortKeys(Lookup(fields, key).value))
  {
    LookupSortValues(fields, key);
    SortFieldsFacts(SortValues(fields));
    LookupPermuted(SortValues(fields), SortFields(SortValues(fields)), key);
  }

  lemma SortedWithoutValues(values: seq<Field>, keys: set<string>)
    requires SortValues(values) == values
    ensures SortValues(Without(SortFields(values), keys)) == Without(SortFields(values), keys)
  {
    SortValuesCommutes(values);
    SortValuesWithout(SortFields(values), keys);
  }

  lemma HashedPartSorted(fields: seq<Field>)
    requires WellFormed(Obj(fields))
    ensures var sorted := SortFields(SortValues(fields));
      SortKeys(Obj(Without(sorted, UNHASHED))) == SortKeys(Obj(Without(fields, UNHASHED)))
  {
    var keys := UNHASHED;
    SortValuesIdempotent(fields);
    HashedPart(fields, SortValues(fields), keys);
  }

  lemma HashedPart(fields: seq<Field>, values: seq<Field>, keys: set<string>)
    requires values == SortValues(fields) && SortValues(values) == values && DistinctFieldKeys(values)
    ensures SortKeys(Obj(Without(SortFields(values), keys))) == SortKeys(Obj(Without(fields, keys)))
  {
    SortedWithoutValues(values, keys);
    WithoutSort(values, keys);
    SortValuesWithout(fields, keys);
  }

  lemma WithoutWellFormed(fields: seq<Field>, keys: set<string>)
    requires WellFormed(Obj(fields))
    ensures WellFormed(Obj(Without(fields, keys)))
  {
    WithoutDistinct(fields, keys);
    WithoutMembers(fields, keys);
  }

  // The hash does not depend on key order.
  lemma HashSorted(h: string -> string, fields: seq<Field>)
    requires WellFormed(Obj(fields))
    ensures EntryHash(h, SortKeys(Obj(fields)).fields) == EntryHash(h, fields)
  {
    HashedPartSorted(fields);
    SortKeysWellFormed(Obj(fields));
    WithoutWellFormed(fields, UNHASHED);
    WithoutWellFormed(SortKeys(Obj(fields)).fields, UNHASHED);
    CanonicalDecides(Obj(Without(fields, UNHASHED)), Obj(Without(SortKeys(Obj(fields)).fields, UNHASHED)));
  }

  // A journal line reads back as the entry it was printed from, up to key order, with its hash matching.
  lemma EntryBack(h: string -> string, fields: seq<Field>)
    requires Sealed(h, fields)
    ensures ReadLine(h, Canonical(Obj(fields))) == SortKeys(Obj(fields))
  {
    CanonicalBack(Obj(fields));
    HashSorted(h, fields);
    LookupSorted(fields, "hash");
  }

  ghost predicate SameElsewhere(a: seq<Field>, b: seq<Field>, keys: set<string>) {
    forall k :: k !in keys ==> SameUnder(a, b, k)
  }

  lemma {:induction false} SameWithout(a: seq<Field>, b: seq<Field>, keys: set<string>, k: string)
    ensures SameUnder(Without(a, keys), Without(b, keys), k) <==> k in keys || SameUnder(a, b, k)
  {
    LookupWithout(a, keys, k);
    LookupWithout(b, keys, k);
  }

  lemma {:induction false} KeptFields(a: seq<Field>, b: seq<Field>, keys: set<string>)
    requires WellFormed(Obj(a)) && WellFormed(Obj(b))
    ensures Canonical(Obj(Without(a, keys))) == Canonical(Obj(Without(b, keys))) <==> SameElsewhere(a, b, keys)
  {
    var x, y := Without(a, keys), Without(b, keys);
    WithoutWellFormed(a, keys);
    WithoutWellFormed(b, keys);
    CanonicalDecides(Obj(x), Obj(y));
    SortedExactly(x, y);
    forall k ensures SameUnder(x, y, k) <==> k in keys || SameUnder(a, b, k) {
      SameWithout(a, b, keys, k);
    }
  }

  // What is hashed is every field but these three: the texts are equal exactly when all others are, up to key order.
  lemma {:induction false} HashedFields(a: seq<Field>, b: seq<Field>)
    requires WellFormed(Obj(a)) && WellFormed(Obj(b))
    ensures Canonical(Obj(Without(a, UNHASHED))) == Canonical(Obj(Without(b, UNHASHED))) <==>
      forall k :: k != "hash" && k != "_corrupt" && k != "_rawLine" ==> SameUnder(a, b, k)
  {
    KeptFields(a, b, UNHASHED);
  }

  // Both hold equal values under the key, up to key order, or neither has it.
  predicate SameUnder(a: seq<Field>, b: seq<Field>, k: string) {
    match (Lookup(a, k), Lookup(b, k))
    case (Some(x), Some(y)) => SortKeys(x) == SortKeys(y)
    case (None, None) => true
    case _ => false
  }

  lemma {:induction false} LookupWithout(fields: seq<Field>, keys: set<string>, k: string)
    ensures Lookup(Without(fields, keys), k) == if k in keys then None else Lookup(fields, k)
  {
    if fields != [] { LookupWithout(fields[1..], keys, k); }
  }

  lemma {:induction false} SortedExactly(a: seq<Field>, b: seq<Field>)
    requires WellFormed(Obj(a)) && WellFormed(Obj(b))
    ensures SortKeys(Obj(a)) == SortKeys(Obj(b)) <==> forall k :: SameUnder(a, b, k)
  {
    var x, y := SortValues(a), SortValues(b);
    SortedFieldsExact(x, y);
    forall k ensures Lookup(x, k) == Lookup(y, k) <==> SameUnder(a, b, k) {
      LookupSortValues(a, k);
      LookupSortValues(b, k);
    }
  }

  // Any change to the hashed fields of a stored entry is flagged, if the hash tells the two texts apart.
  lemma AlteredEntryFlagged(h: string -> string, fields: seq<Field>, altered: seq<Field>)
    requires Sealed(h, fields) && h(Canonical(Obj(Without(fields, UNHASHED)))) != ""
    requires WellFormed(Obj(altered)) && Lookup(altered, "hash") == Lookup(fields, "hash")
    requires EntryHash(h, altered) != EntryHash(h, fields)
    ensures var r := ReadLine(h, Canonical(Obj(altered)));
      IsCorrupt(r) && Lookup(r.fields, "_corrupt") == Some(Bool(true))
  {
    CanonicalBack(Obj(altered));
    HashSorted(h, altered);
    LookupSorted(altered, "hash");
    SortKeysWellFormed(Obj(altered));
    var sorted := SortKeys(Obj(altered)).fields;
    SetFieldFacts(sorted, "_corrupt", Bool(true));
    LookupMember(SetField(sorted, "_corrupt", Bool(true)), Field("_corrupt", Bool(true)));
  }

  // ---- the journal after a crash ----

  function Line(entry: seq<Field>): string {
    Canonical(Obj(entry))
  }

  function LinesOf(entries: seq<seq<Field>>): (r: seq<string>)
    ensures |r| == |entries| && forall i :: 0 <= i < |r| ==> r[i] == Line(entries[i])
  {
    seq(|entries|, i requires 0 <= i < |entries| => Line(entries[i]))
  }

  function SortedEntries(entries: seq<seq<Field>>): (r: seq<Json>)
    ensures |r| == |entries| && forall i :: 0 <= i < |r| ==> r[i] == SortKeys(Obj(entries[i]))
  {
    seq(|entries|, i requires 0 <= i < |entries| => SortKeys(Obj(entries[i])))
  }

  function Journal(entries: seq<seq<Field>>): string {
    Framed(LinesOf(entries))
  }

  function Reader(h: string -> string): string -> Json {
    line => ReadLine(h, line)
  }

  function ReadBack(h: string -> string, file: string): seq<Json> {
    ReadText(Reader(h), file)
  }

  lemma SealedLines(h: string -> string, entries: seq<seq<Field>>)
    requires AllSealed(h, entries)
    ensures ProperLines(LinesOf(entries))
  {
    forall i | 0 <= i < |entries| ensures ProperLine(LinesOf(entries)[i]) {
      assert entries[i] in entries;
      CanonicalOneLine(Obj(entries[i]));
    }
  }

  lemma ReadEntries(h: string -> string, entries: seq<seq<Field>>)
    requires AllSealed(h, entries)
    ensures ReadLines(Reader(h), LinesOf(entries)) == SortedEntries(entries)
  {
    var lines, out := LinesOf(entries), SortedEntries(entries);
    SealedLines(h, entries);
    forall i | 0 <= i < |lines| ensures Reader(h)(lines[i]) == out[i] {
      assert entries[i] in entries;
      EntryBack(h, entries[i]);
    }
    ReadLinesAre(Reader(h), lines, out);
  }

  // Cut the journal anywhere: what reads back is the first m entries appended, each up to key order, and
  // at most one garbled line. So a crash in the middle of a write loses only that write.
  lemma CrashRead(h: string -> string, entries: seq<seq<Field>>, k: nat, m: nat)
    requires AllSealed(h, entries) && k <= |Journal(entries)| && Survive(LinesOf(entries), k, m)
    ensures var torn := Torn(LinesOf(entries), k, m);
      ReadBack(h, Journal(entries)[..k]) ==
      SortedEntries(entries[..m]) + if torn == "" then [] else [Garbled(torn)]
  {
    var lines := LinesOf(entries);
    SealedLines(h, entries);
    CutRead(Reader(h), lines, k, m);
    assert lines[..m] == LinesOf(entries[..m]);
    ReadEntries(h, entries[..m]);
    var torn := Torn(lines, k, m);
    if torn != "" {
      TornIsPrefix(lines, k, m);
      assert entries[m] in entries;
      CanonicalTorn(entries[m], |torn|);
    }
  }

  // The uncut journal reads back as all its entries.
  lemma JournalRead(h: string -> string, entries: seq<seq<Field>>)
    requires AllSealed(h, entries)
    ensures ReadBack(h, Journal(entries)) == SortedEntries(entries)
  {
    SealedLines(h, entries);
    WholeRead(Reader(h), LinesOf(entries));
    ReadEntries(h, entries);
  }

  lemma JournalAppend(entries: seq<seq<Field>>, e: seq<Field>)
    ensures Journal(entries + [e]) == Journal(entries) + Line(e) + "\n"
  {
    assert LinesOf(entries + [e]) == LinesOf(entries) + [Line(e)];
    FramedAppend(LinesOf(entries), Line(e));
  }

  // ---- appending to any file ----

  lemma GluedGarbled(h: string -> string, text: string, b: seq<Field>)
    requires Sealed(h, b) && text != "" && text[0] == '{'
    ensures ReadLine(h, text + Line(b)) == Garbled(text + Line(b))
  {
    CanonicalGlued(text, b);
  }

  // A file whose unended last line, if any, begins with a brace.
  ghost predicate Appendable(file: string, body: string, tail: string) {
    Splits(file, body, tail) && (tail == "" || tail[0] == '{')
  }

  // What a file reads as once an entry is appended: the entry on its own line, or one garbled line made of
  // the unended line and the entry.
  lemma AppendRead(h: string -> string, file: string, body: string, tail: string, b: seq<Field>)
    requires Sealed(h, b) && Appendable(file, body, tail)
    ensures ReadBack(h, file + Line(b) + "\n") ==
      ReadBack(h, body) + [if tail == "" then SortKeys(Obj(b)) else Garbled(tail + Line(b))]
    ensures ReadBack(h, file) == ReadBack(h, body) + if tail == "" then [] else [ReadLine(h, tail)]
  {
    CanonicalOneLine(Obj(b));
    ReadAdded(Reader(h), file, body, tail, Line(b));
    if tail == "" {
      assert tail + Line(b) == Line(b);
      EntryBack(h, b);
    } else {
      GluedGarbled(h, tail, b);
    }
  }

  // An appended entry reads back after everything that was readable before exactly when the file was empty
  // or ended in a newline.
  lemma AppendExactly(h: string -> string, file: string, b: seq<Field>)
    requires Sealed(h, b) && Braced(file)
    ensures ReadBack(h, file + Line(b) + "\n") == ReadBack(h, file) + [SortKeys(Obj(b))] <==> Ended(file)
  {
    var body, tail := SomeSplit(file);
    SplitEnded(file, body, tail);
    if tail != "" { BracedTail(file, body, tail); }
    AppendRead(h, file, body, tail, b);
  }

  lemma GarbledHasNoHash(h: string -> string, text: string, b: seq<Field>)
    requires Sealed(h, b)
    ensures Garbled(text) != SortKeys(Obj(b))
  {
    LookupSorted(b, "hash");
    var fields := Garbled(text).fields;
    assert forall f :: f in fields ==> f.key != "hash";
  }

  lemma {:induction false} JournalBraced(entries: seq<seq<Field>>)
    requires ProperLines(LinesOf(entries))
    ensures Braced(Journal(entries))
    decreases |entries|
  {
    if entries != [] {
      var front, last := entries[..|entries| - 1], entries[|entries| - 1];
      assert entries == front + [last];
      assert LinesOf(entries)[|front|] == Line(last);
      assert forall i :: 0 <= i < |front| ==> LinesOf(front)[i] == LinesOf(entries)[i];
      JournalBraced(front);
      JournalAppend(front, last);
      CanonicalBrace(last);
      BracedAdded(Journal(front), Line(last));
    }
  }

  // What a crash leaves of a journal, split at its last newline.
  lemma CrashAppendable(h: string -> string, entries: seq<seq<Field>>, k: nat) returns (body: string, tail: string)
    requires AllSealed(h, entries) && k <= |Journal(entries)|
    ensures Appendable(Journal(entries)[..k], body, tail)
    ensures tail == "" <==> k == 0 || Journal(entries)[k - 1] == '\n'
    ensures Braced(Journal(entries)[..k])
  {
    var left := Journal(entries)[..k];
    SealedLines(h, entries);
    JournalBraced(entries);
    BracedCut(Journal(entries), k);
    body, tail := SomeSplit(left);
    SplitEnded(left, body, tail);
    if tail != "" { BracedTail(left, body, tail); }
  }

  // After a cut inside a line the next entry is lost: what the crash left of that line and the entry read as one
  // garbled line.
  lemma AppendLost(h: string -> string, entries: seq<seq<Field>>, k: nat, b: seq<Field>)
      returns (body: string, tail: string)
    requires AllSealed(h, entries) && Sealed(h, b)
    requires 0 < k <= |Journal(entries)| && Journal(entries)[k - 1] != '\n'
    ensures Splits(Journal(entries)[..k], body, tail) && tail != ""
    ensures ReadBack(h, Journal(entries)[..k] + Line(b) + "\n") == ReadBack(h, body) + [Garbled(tail + Line(b))]
  {
    body, tail := CrashAppendable(h, entries, k);
    AppendRead(h, Journal(entries)[..k], body, tail, b);
  }

  lemma LastIsGarbled(h: string -> string, before: seq<Json>, text: string, entries: seq<seq<Field>>, b: seq<Field>)
    requires Sealed(h, b)
    ensures before + [Garbled(text)] != SortedEntries(entries + [b])
  {
    GarbledHasNoHash(h, text, b);
    var all := SortedEntries(entries + [b]);
    assert all[|all| - 1] == SortKeys(Obj(b));
    assert (before + [Garbled(text)])[|before|] == Garbled(text);
  }

  lemma CutAtLineStart(h: string -> string, entries: seq<seq<Field>>, k: nat, m: nat)
    requires AllSealed(h, entries) && k <= |Journal(entries)| && Survive(LinesOf(entries), k, m)
    requires Ended(Journal(entries)[..k])
    ensures ReadBack(h, Journal(entries)[..k]) == SortedEntries(entries[..m])
  {
    var lines := LinesOf(entries);
    var torn := Torn(lines, k, m);
    SealedLines(h, entries);
    CrashRead(h, entries, k, m);
    if torn != "" { TornNotEnded(lines, k, m); }
  }

  lemma SortedAppend(entries: seq<seq<Field>>, b: seq<Field>)
    ensures SortedEntries(entries + [b]) == SortedEntries(entries) + [SortKeys(Obj(b))]
  {
  }

  lemma AppendKept(h: string -> string, entries: seq<seq<Field>>, k: nat, m: nat, b: seq<Field>)
    requires AllSealed(h, entries) && Sealed(h, b)
    requires k <= |Journal(entries)| && Survive(LinesOf(entries), k, m)
    requires k == 0 || Journal(entries)[k - 1] == '\n'
    ensures ReadBack(h, Journal(entries)[..k] + Line(b) + "\n") == SortedEntries(entries[..m] + [b])
  {
    var body, tail := CrashAppendable(h, entries, k);
    AppendRead(h, Journal(entries)[..k], body, tail, b);
    CutAtLineStart(h, entries, k, m);
    SortedAppend(entries[..m], b);
  }

  // After a crash that leaves the first k characters, the next entry appended reads back after the m entries
  // that survived exactly when the cut was at the start of a line.
  lemma AppendAfterCrash(h: string -> string, entries: seq<seq<Field>>, k: nat, m: nat, b: seq<Field>)
    requires AllSealed(h, entries) && Sealed(h, b)
    requires k <= |Journal(entries)| && Survive(LinesOf(entries), k, m)
    ensures ReadBack(h, Journal(entries)[..k] + Line(b) + "\n") == SortedEntries(entries[..m] + [b])
      <==> k == 0 || Journal(entries)[k - 1] == '\n'
  {
    if k == 0 || Journal(entries)[k - 1] == '\n' {
      AppendKept(h, entries, k, m, b);
    } else {
      var body, tail := AppendLost(h, entries, k, b);
      LastIsGarbled(h, ReadBack(h, body), tail + Line(b), entries[..m], b);
    }
  }

  // A crash that loses just the last newline keeps that entry readable, but the next append runs into it:
  // the two then read as one garbled line, and both entries are lost.
  lemma LostNewline(h: string -> string, entries: seq<seq<Field>>, a: seq<Field>, b: seq<Field>)
    requires AllSealed(h, entries) && Sealed(h, a) && Sealed(h, b)
    ensures var file := Journal(entries + [a]);
      && ReadBack(h, file[..|file| - 1]) == SortedEntries(entries + [a])
      && ReadBack(h, file[..|file| - 1] + Line(b) + "\n") == SortedEntries(entries) + [Garbled(Line(a) + Line(b))]
  {
    var file, body := Journal(entries + [a]), Journal(entries);
    JournalAppend(entries, a);
    SealedLines(h, entries);
    CanonicalOneLine(Obj(a));
    CanonicalBrace(a);
    assert file[..|file| - 1] == body + Line(a);
    JournalEnded(entries);
    AppendRead(h, body + Line(a), body, Line(a), b);
    JournalRead(h, entries);
    EntryBack(h, a);
    assert SortedEntries(entries + [a]) == SortedEntries(entries) + [SortKeys(Obj(a))];
  }

  lemma JournalEnded(entries: seq<seq<Field>>)
    ensures Ended(Journal(entries))
  {
    if entries != [] {
      var front, last := entries[..|entries| - 1], entries[|entries| - 1];
      assert entries == front + [last];
      JournalAppend(front, last);
    }
  }

  // ---- runs of the log ----

  datatype Log = Log(file: string, sequence: nat)

  // A crash cuts the file and restarts the count, as does opening the log again; moving the file away may
  // fail silently.
  datatype Event = Append(ts: string, op: seq<Field>) | Crash(k: nat) | Reopen | Truncate(renamed: bool)

  function Apply(h: string -> string, log: Log, e: Event): Log {
    match e
    case Append(ts, op) => Log(log.file + Line(Stamp(h, log.sequence + 1, ts, op)) + "\n", log.sequence + 1)
    case Crash(k) => Log(if k < |log.file| then log.file[..k] else log.file, 0)
    case Reopen => log.(sequence := 0)
    case Truncate(renamed) => Log(if renamed then "" else log.file, 0)
  }

  function Run(h: string -> string, log: Log, es: seq<Event>): Log
    decreases |es|
  {
    if es == [] then log else Run(h, Apply(h, log, es[0]), es[1..])
  }

  ghost predicate WellFormedOps(es: seq<Event>) {
    forall e :: e in es && e.Append? ==> WellFormed(Obj(e.op))
  }

  lemma AppendBraced(h: string -> string, file: string, b: seq<Field>)
    requires Braced(file) && Sealed(h, b)
    ensures Braced(file + Line(b) + "\n")
  {
    CanonicalOneLine(Obj(b));
    CanonicalBrace(b);
    BracedAdded(file, Line(b));
  }

  lemma ApplyBraced(h: string -> string, log: Log, e: Event)
    requires Braced(log.file) && (e.Append? ==> WellFormed(Obj(e.op)))
    ensures Braced(Apply(h, log, e).file)
  {
    match e {
      case Append(ts, op) =>
        StampSealed(h, log.sequence + 1, ts, op);
        AppendBraced(h, log.file, Stamp(h, log.sequence + 1, ts, op));
      case Crash(k) => if k < |log.file| { BracedCut(log.file, k); }
      case _ =>
    }
  }

  lemma {:induction false} EveryRunBraced(h: string -> string, log: Log, es: seq<Event>)
    requires Braced(log.file) && WellFormedOps(es)
    ensures Braced(Run(h, log, es).file)
    decreases |es|
  {
    if es != [] {
      assert es[0] in es;
      ApplyBraced(h, log, es[0]);
      EveryRunBraced(h, Apply(h, log, es[0]), es[1..]);
    }
  }

  lemma {:induction false} AppendApplies(h: string -> string, log: Log, next: nat, ts: string, op: seq<Field>,
      entry: seq<Field>)
    requires next == log.sequence + 1 && entry == Stamp(h, next, ts, op)
    ensures Apply(h, log, Append(ts, op)) == Log(log.file + Line(entry) + "\n", next)
  {
  }

  // A crash keeps some of the file; like a truncation or a reopening it makes the next entry number one.
  lemma {:induction false} CountsFromOne(h: string -> string, log: Log, e: Event, ts: string, op: seq<Field>)
    requires !e.Append?
    ensures var left := Apply(h, log, e).file;
      && left <= log.file && (e.Reopen? ==> left == log.file)
      && (e.Crash? && e.k >= |log.file| ==> left == log.file) && (e.Crash? && e.k < |log.file| ==> |left| == e.k)
      && (e.Truncate? ==> left == if e.renamed then "" else log.file)
      && Run(h, log, [e, Append(ts, op)]) == Log(left + Line(Stamp(h, 1, ts, op)) + "\n", 1)
  {
    assert [e, Append(ts, op)][1..] == [Append(ts, op)] && [Append(ts, op)][1..] == [];
    assert Run(h, log, [e, Append(ts, op)]) == Run(h, Apply(h, log, e), [Append(ts, op)]);
    assert Run(h, Apply(h, log, e), [Append(ts, op)]) == Apply(h, Apply(h, log, e), Append(ts, op));
  }

  // After any run of appends, crashes, reopenings and truncations of a log that began empty, the next entry
  // appended is readable exactly when the file is empty or ends in a newline.
  lemma RunThenAppend(h: string -> string, es: seq<Event>, ts: string, op: seq<Field>)
    requires WellFormedOps(es) && WellFormed(Obj(op))
    ensures var log := Run(h, Log("", 0), es);
      var entry := Stamp(h, log.sequence + 1, ts, op);
      ReadBack(h, Apply(h, log, Append(ts, op)).file) == ReadBack(h, log.file) + [SortKeys(Obj(entry))]
      <==> Ended(log.file)
  {
    var log := Run(h, Log("", 0), es);
    EveryRunBraced(h, Log("", 0), es);
    StampSealed(h, log.sequence + 1, ts, op);
    AppendExactly(h, log.file, Stamp(h, log.sequence + 1, ts, op));
  }

  // The value read is the entry of the operation, with keys sorted inside its values.
  ghost predicate Returns(v: Json, sequence: nat, ts: string, op: seq<Field>) {
    && v.Obj?
    && (forall f :: f in op && f.key != "hash" ==> Lookup(v.fields, f.key) == Some(SortKeys(f.value)))
    && (!Names(op, "seq") ==> Lookup(v.fields, "seq") == Some(Num(Decimal(sequence))))
    && (!Names(op, "ts") ==> Lookup(v.fields, "ts") == Some(Str(ts)))
    && (forall k :: Lookup(v.fields, k).Some? ==> k in {"seq", "ts", "hash"} || Names(op, k))
  }

  // So the last value read after an append to an ended file is the operation that was appended.
  lemma {:induction false} AppendedReturns(h: string -> string, sequence: nat, ts: string, op: seq<Field>)
    requires WellFormed(Obj(op))
    ensures Returns(SortKeys(Obj(Stamp(h, sequence, ts, op))), sequence, ts, op)
  {
    var entry := Stamp(h, sequence, ts, op);
    var v := SortKeys(Obj(entry));
    StampSealed(h, sequence, ts, op);
    forall f | f in op && f.key != "hash" ensures Lookup(v.fields, f.key) == Some(SortKeys(f.value)) {
      LookupMember(op, f);
      LookupSorted(entry, f.key);
      LookupStamp(h, sequence, ts, op, f.key);
    }
    LookupSorted(entry, "seq");
    LookupSorted(entry, "ts");
    LookupStamp(h, sequence, ts, op, "seq");
    LookupStamp(h, sequence, ts, op, "ts");
    forall k | Lookup(v.fields, k).Some? ensures k in {"seq", "ts", "hash"} || Names(op, k) {
      LookupSorted(entry, k);
      if k != "hash" { LookupStamp(h, sequence, ts, op, k); }
    }
  }

  ghost predicate IsJournal(h: string -> string, file: string, entries: seq<seq<Field>>) {
    file == Journal(entries) && AllSealed(h, entries)
  }

  lemma AppendHolds(h: string -> string, file: string, entry: seq<Field>)
    requires Sealed(h, entry)
    ensures forall entries :: IsJournal(h, file, entries) ==> IsJournal(h, file + Line(entry) + "\n", entries + [entry])
  {
    forall entries | IsJournal(h, file, entries) ensures IsJournal(h, file + Line(entry) + "\n", entries + [entry]) {
      JournalAppend(entries, entry);
    }
  }

  // ---- the log object ----

  class TransactionLog {
    const hash: string -> string
    var file: string
    var sequence: nat

    function State(): Log
      reads this
    {
      Log(file, sequence)
    }

    // The file is exactly these entries, each intact.
    ghost predicate Holds(entries: seq<seq<Field>>)
      reads this
    {
      IsJournal(hash, file, entries)
    }

    // Opens whatever the file holds, and counts from zero.
    constructor (hash: string -> string, file: string)
      ensures this.hash == hash && State() == Log(file, 0)
    {
      this.hash := hash;
      this.file, sequence := file, 0;
    }

    method Append(ts: string, op: seq<Field>) returns (entry: seq<Field>)
      requires WellFormed(Obj(op))
      modifies this
      ensures entry == Stamp(hash, sequence, ts, op) && Sealed(hash, entry)
      ensures Carries(entry, sequence, ts, op) && sequence == old(sequence) + 1
      ensures State() == Apply(hash, old(State()), Event.Append(ts, op))
      ensures forall entries :: old(Holds(entries)) ==> Holds(entries + [entry])
      ensures old(Braced(file)) ==>
        (ReadBack(hash, file) == ReadBack(hash, old(file)) + [SortKeys(Obj(entry))] <==> Ended(old(file)))
      ensures Returns(SortKeys(Obj(entry)), sequence, ts, op)
    {
      ghost var before := State();
      sequence := sequence + 1;
      entry := Spread([Field("seq", Num(Decimal(sequence))), Field("ts", Str(ts))], op);
      entry := SetField(entry, "hash", Str(EntryHash(hash, entry)));
      assert entry == Stamp(hash, sequence, ts, op);
      AppendApplies(hash, before, sequence, ts, op, entry);
      StampSealed(hash, sequence, ts, op);
      StampCarries(hash, sequence, ts, op);
      AppendedReturns(hash, sequence, ts, op);
      if Braced(file) { AppendExactly(hash, file, entry); }
      AppendHolds(hash, file, entry);
      file := file + Line(entry) + "\n";
    }

    // Lines that do not parse and entries whose hash does not match come back marked corrupt.
    method ReadAll() returns (out: seq<Json>)
      ensures out == ReadBack(hash, file)
      ensures forall entries :: Holds(entries) ==> out == SortedEntries(entries)
    {
      out := ReadEach(Reader(hash), file);
      forall entries | Holds(entries) ensures out == SortedEntries(entries) {
        JournalRead(hash, entries);
      }
    }

    // Renaming the file away may fail silently; the counter restarts either way.
    method Truncate(renamed: bool)
      modifies this
      ensures State() == Apply(hash, old(State()), Event.Truncate(renamed))
    {
      if renamed {
        file := "";
      }
      sequence := 0;
    }
  }
}
