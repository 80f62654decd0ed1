// Replaying journal entries into a state map. How a value turns into text inside a key is a parameter.
module Replays {
  import opened Common
  import opened Json
  import opened FieldOrder
  import opened CanonicalText
  import opened LineFraming
  import opened TransactionLogs

  // A missing data field stores undefined, here None.
  type State = map<string, Option<Json>>

  datatype Applied = Applied(sequence: Option<Json>, key: string, op: Json)

  datatype Replayed = Replayed(applied: seq<Applied>, skipped: seq<Json>, state: State)

  datatype Change = Change(key: string, del: bool, data: Option<Json>)

  function FieldOf(entry: Json, key: string): Option<Json> {
    if entry.Obj? then Lookup(entry.fields, key) else None
  }

  predicate Present(v: Option<Json>) {
    v.Some? && Truthy(v.value)
  }

  predicate Skipped(entry: Json) {
    !Truthy(entry) || IsCorrupt(entry) || !Present(FieldOf(entry, "type")) || !Present(FieldOf(entry, "taskId"))
  }

  // An entry is skipped exactly when it is nothing, is marked, or lacks a kind or a task.
  lemma {:induction false} SkippedExactly(entry: Json)
    ensures Skipped(entry) <==>
      || Falsy(entry)
      || (entry.Obj? && Lookup(entry.fields, "_corrupt").Some? && !Falsy(Lookup(entry.fields, "_corrupt").value))
      || !entry.Obj?
      || Lookup(entry.fields, "type").None? || Falsy(Lookup(entry.fields, "type").value)
      || Lookup(entry.fields, "taskId").None? || Falsy(Lookup(entry.fields, "taskId").value)
  {
    TruthyExactly(entry);
    if entry.Obj? {
      forall k | Lookup(entry.fields, k).Some?
        ensures Truthy(Lookup(entry.fields, k).value) <==> !Falsy(Lookup(entry.fields, k).value)
      {
        TruthyExactly(Lookup(entry.fields, k).value);
      }
    }
  }

  function OpOf(entry: Json): Json {
    match FieldOf(entry, "op")
    case None => Str("set")
    case Some(op) => op
  }

  // `${type}:${taskId}`
  function KeyOf(show: Json -> string, entry: Json): string
    requires !Skipped(entry)
  {
    show(FieldOf(entry, "type").value) + ":" + show(FieldOf(entry, "taskId").value)
  }

  function Write(state: State, key: string, del: bool, data: Option<Json>): State {
    if del then state - {key} else state[key := data]
  }

  function Step(show: Json -> string, r: Replayed, entry: Json): Replayed {
    if Skipped(entry) then r.(skipped := r.skipped + [entry])
    else
      var key := KeyOf(show, entry);
      r.(applied := r.applied + [Applied(FieldOf(entry, "seq"), key, OpOf(entry))],
         state := Write(r.state, key, OpOf(entry) == Str("del"), FieldOf(entry, "data")))
  }

  function Run(show: Json -> string, r: Replayed, entries: seq<Json>): Replayed
    decreases |entries|
  {
    if entries == [] then r
    else Step(show, Run(show, r, entries[..|entries| - 1]), entries[|entries| - 1])
  }

  function Final(show: Json -> string, state: State, entries: seq<Json>): State {
    Run(show, Replayed([], [], state), entries).state
  }

  lemma RunStep(show: Json -> string, r: Replayed, entries: seq<Json>, i: nat)
    requires i < |entries|
    ensures Run(show, r, entries[..i + 1]) == Step(show, Run(show, r, entries[..i]), entries[i])
  {
    assert entries[..i + 1][..i] == entries[..i];
  }

  method Replay(show: Json -> string, entries: seq<Json>, initial: State) returns (r: Replayed)
    ensures r == Run(show, Replayed([], [], initial), entries)
    ensures |r.applied| + |r.skipped| == |entries|
  {
    var applied, skipped, state := [], [], initial;
    ghost var start := Replayed([], [], initial);
    for i := 0 to |entries|
      invariant Replayed(applied, skipped, state) == Run(show, start, entries[..i])
      invariant |applied| + |skipped| == i
    {
      var entry := entries[i];
      RunStep(show, start, entries, i);
      if Skipped(entry) {
        skipped := skipped + [entry];
        continue;
      }
      var key, op := KeyOf(show, entry), OpOf(entry);
      if op == Str("del") {
        state := state - {key};
      } else {
        state := state[key := FieldOf(entry, "data")];
      }
      applied := applied + [Applied(FieldOf(entry, "seq"), key, op)];
    }
    assert entries[..|entries|] == entries;
    r := Replayed(applied, skipped, state);
  }

  // ---- what the final state means ----

  predicate Writes(show: Json -> string, entry: Json, key: string) {
    !Skipped(entry) && KeyOf(show, entry) == key
  }

  predicate Deletes(entry: Json) {
    OpOf(entry) == Str("del")
  }

  // What a state holds under a key, and what an entry leaves there.
  function Held(state: State, key: string): Option<Option<Json>> {
    if key in state then Some(state[key]) else None
  }

  function Left(entry: Json): Option<Option<Json>> {
    if Deletes(entry) then None else Some(FieldOf(entry, "data"))
  }

  ghost predicate LastWriter(show: Json -> string, entries: seq<Json>, key: string, i: nat) {
    && i < |entries| && Writes(show, entries[i], key)
    && forall j :: i < j < |entries| ==> !Writes(show, entries[j], key)
  }

  lemma {:induction false} Untouched(show: Json -> string, state: State, entries: seq<Json>, key: string)
    requires forall j :: 0 <= j < |entries| ==> !Writes(show, entries[j], key)
    ensures Held(Final(show, state, entries), key) == Held(state, key)
    decreases |entries|
  {
    if entries != [] {
      var n := |entries| - 1;
      Untouched(show, state, entries[..n], key);
      assert entries == entries[..n] + [entries[n]];
    }
  }

  // Every key holds what the last entry that writes it left, and its initial value if there is none.
  lemma {:induction false} LastWriteWins(show: Json -> string, state: State, entries: seq<Json>, key: string, i: nat)
    requires LastWriter(show, entries, key, i)
    ensures Held(Final(show, state, entries), key) == Left(entries[i])
    decreases |entries|
  {
    var n := |entries| - 1;
    assert entries == entries[..n] + [entries[n]];
    if i < n {
      assert LastWriter(show, entries[..n], key, i);
      LastWriteWins(show, state, entries[..n], key, i);
    }
  }

  lemma {:induction false} FindLast(show: Json -> string, entries: seq<Json>, key: string) returns (i: int)
    ensures i == -1 || (0 <= i && LastWriter(show, entries, key, i))
    ensures i == -1 ==> forall j :: 0 <= j < |entries| ==> !Writes(show, entries[j], key)
    decreases |entries|
  {
    i := -1;
    if entries != [] {
      var n := |entries| - 1;
      if Writes(show, entries[n], key) {
        i := n;
      } else {
        i := FindLast(show, entries[..n], key);
      }
    }
  }

  lemma SameHeld(a: State, b: State)
    requires forall key :: Held(a, key) == Held(b, key)
    ensures a == b
  {
    forall key ensures key in a <==> key in b {
      assert Held(a, key) == Held(b, key);
    }
    forall key | key in a ensures a[key] == b[key] {
      assert Held(a, key) == Held(b, key);
    }
  }

  // Replaying a journal in two parts is replaying it whole.
  lemma {:induction false} Composes(show: Json -> string, state: State, a: seq<Json>, b: seq<Json>)
    ensures Final(show, Final(show, state, a), b) == Final(show, state, a + b)
    decreases |b|
  {
    if b == [] {
      assert a + b == a;
    } else {
      var n := |b| - 1;
      Composes(show, state, a, b[..n]);
      assert (a + b)[..|a + b| - 1] == a + b[..n];
    }
  }

  // Replaying the last part of a journal again, from any point, changes nothing.
  lemma ReplayedTwice(show: Json -> string, state: State, a: seq<Json>, b: seq<Json>)
    ensures Final(show, state, a + b + b) == Final(show, state, a + b)
  {
    var before := Final(show, state, a);
    var once := Final(show, before, b);
    Composes(show, state, a, b);
    Composes(show, state, a + b, b);
    forall key ensures Held(Final(show, once, b), key) == Held(once, key) {
      var i := FindLast(show, b, key);
      if i == -1 {
        Untouched(show, once, b, key);
      } else {
        LastWriteWins(show, before, b, key, i);
        LastWriteWins(show, once, b, key, i);
      }
    }
    SameHeld(Final(show, once, b), once);
  }

  // Delivering one earlier entry again is harmless exactly when it leaves what the last writer of its key
  // left; its sequence number plays no part.
  lemma Redelivered(show: Json -> string, state: State, entries: seq<Json>, e: Json, i: nat)
    requires e in entries && !Skipped(e) && LastWriter(show, entries, KeyOf(show, e), i)
    ensures Final(show, state, entries + [e]) == Final(show, state, entries) <==> Left(e) == Left(entries[i])
  {
    var key := KeyOf(show, e);
    LastWriteWins(show, state, entries, key, i);
    if Left(e) == Left(entries[i]) {
      assert forall k :: Held(Final(show, state, entries + [e]), k) == Held(Final(show, state, entries), k);
      SameHeld(Final(show, state, entries + [e]), Final(show, state, entries));
    }
  }

  function Entry(sequence: string, data: Json): Json {
    Obj([Field("seq", Num(sequence)), Field("type", Str("task")), Field("taskId", Str("t")), Field("data", data)])
  }

  lemma StaleCopy(show: Json -> string, state: State, a: Json, b: Json)
    requires !Skipped(a) && Writes(show, b, KeyOf(show, a)) && Left(a) != Left(b)
    ensures Final(show, state, [a, b, a]) != Final(show, state, [a, b])
  {
    assert [a, b] + [a] == [a, b, a];
    assert LastWriter(show, [a, b], KeyOf(show, a), 1);
    Redelivered(show, state, [a, b], a, 1);
  }

  // So replay is not idempotent by sequence number: a late copy of entry 1 undoes entry 2.
  lemma StaleCopyWins(show: Json -> string, state: State)
    ensures var a, b := Entry("1", Null), Entry("2", Bool(true));
      Final(show, state, [a, b, a]) != Final(show, state, [a, b])
  {
    EntryFacts("1", Null);
    EntryFacts("2", Bool(true));
    StaleCopy(show, state, Entry("1", Null), Entry("2", Bool(true)));
  }

  lemma EntryFacts(sequence: string, data: Json)
    ensures var e := Entry(sequence, data);
      && !Skipped(e) && FieldOf(e, "data") == Some(data) && OpOf(e) == Str("set")
      && FieldOf(e, "type") == Some(Str("task")) && FieldOf(e, "taskId") == Some(Str("t"))
  {
    LookupFour(Field("seq", Num(sequence)), Field("type", Str("task")), Field("taskId", Str("t")), Field("data", data));
  }

  lemma LookupFour(f0: Field, f1: Field, f2: Field, f3: Field)
    requires f0.key == "seq" && f1.key == "type" && f2.key == "taskId" && f3.key == "data"
    ensures var fs := [f0, f1, f2, f3];
      && Lookup(fs, "type") == Some(f1.value) && Lookup(fs, "taskId") == Some(f2.value)
      && Lookup(fs, "data") == Some(f3.value) && Lookup(fs, "op") == None && Lookup(fs, "_corrupt") == None
  {
  }

  // ---- an appended operation ----

  // The operation as it is written to the journal: a kind, a task, what to do and, for a set, the data.
  ghost predicate Operation(op: seq<Field>, kind: string, task: string, verb: string) {
    && WellFormed(Obj(op)) && kind != "" && task != ""
    && Lookup(op, "type") == Some(Str(kind)) && Lookup(op, "taskId") == Some(Str(task)) && Lookup(op, "op") == Some(Str(verb))
    && Lookup(op, "_corrupt").None?
  }

  // The entry read back for it.
  ghost predicate Wrote(v: Json, kind: string, task: string, verb: string, data: Option<Json>) {
    && v.Obj? && Lookup(v.fields, "type") == Some(Str(kind)) && Lookup(v.fields, "taskId") == Some(Str(task))
    && Lookup(v.fields, "op") == Some(Str(verb)) && Lookup(v.fields, "_corrupt").None? && Lookup(v.fields, "data") == data
  }

  function Sorted(v: Option<Json>): Option<Json> {
    if v.None? then None else Some(SortKeys(v.value))
  }

  lemma {:induction false} StampLookedUp(h: string -> string, sequence: nat, ts: string, op: seq<Field>, k: string)
    requires WellFormed(Obj(op)) && k != "hash" && k != "seq" && k != "ts"
    ensures Lookup(SortKeys(Obj(Stamp(h, sequence, ts, op))).fields, k) == Sorted(Lookup(op, k))
  {
    StampSealed(h, sequence, ts, op);
    LookupStamp(h, sequence, ts, op, k);
    LookupSorted(Stamp(h, sequence, ts, op), k);
  }

  lemma {:induction false} StampedOperation(h: string -> string, sequence: nat, ts: string, op: seq<Field>,
      kind: string, task: string, verb: string)
    requires Operation(op, kind, task, verb)
    ensures Wrote(SortKeys(Obj(Stamp(h, sequence, ts, op))), kind, task, verb, Sorted(Lookup(op, "data")))
  {
    StampLookedUp(h, sequence, ts, op, "type");
    StampLookedUp(h, sequence, ts, op, "taskId");
    StampLookedUp(h, sequence, ts, op, "op");
    StampLookedUp(h, sequence, ts, op, "_corrupt");
    StampLookedUp(h, sequence, ts, op, "data");
  }

  lemma {:induction false} LastApplied(show: Json -> string, state: State, entries: seq<Json>, v: Json)
    requires !Skipped(v)
    ensures Final(show, state, entries + [v]) ==
      Write(Final(show, state, entries), KeyOf(show, v), OpOf(v) == Str("del"), FieldOf(v, "data"))
  {
    assert (entries + [v])[..|entries|] == entries;
  }

  lemma {:induction false} WroteApplied(show: Json -> string, state: State, entries: seq<Json>, v: Json,
      kind: string, task: string, verb: string, data: Option<Json>)
    requires Wrote(v, kind, task, verb, data) && kind != "" && task != ""
    requires show(Str(kind)) == kind && show(Str(task)) == task
    ensures var before := Final(show, state, entries);
      Final(show, state, entries + [v]) ==
      if verb == "del" then before - {kind + ":" + task} else before[kind + ":" + task := data]
  {
    LastApplied(show, state, entries, v);
  }

  // Replaying the journal after an operation is appended to an ended file stores its data under its kind and task, or
  // drops them when the operation deletes, and leaves all else as it was.
  lemma {:induction false} AppendReplayed(h: string -> string, show: Json -> string, state: State, file: string,
      sequence: nat, ts: string, op: seq<Field>, kind: string, task: string, verb: string)
    requires Operation(op, kind, task, verb) && Braced(file) && Ended(file)
    requires show(Str(kind)) == kind && show(Str(task)) == task
    ensures var before := Final(show, state, ReadBack(h, file));
      Final(show, state, ReadBack(h, file + Line(Stamp(h, sequence, ts, op)) + "\n")) ==
      if verb == "del" then before - {kind + ":" + task}
      else before[kind + ":" + task := Sorted(Lookup(op, "data"))]
  {
    var entry := Stamp(h, sequence, ts, op);
    StampSealed(h, sequence, ts, op);
    AppendExactly(h, file, entry);
    StampedOperation(h, sequence, ts, op, kind, task, verb);
    WroteApplied(show, state, ReadBack(h, file), SortKeys(Obj(entry)), kind, task, verb, Sorted(Lookup(op, "data")));
  }

  // ---- after a crash ----

  // Replaying a journal cut at any point gives the state after the entries that survived the cut.
  lemma CrashReplay(h: string -> string, show: Json -> string, state: State,
      entries: seq<seq<Field>>, k: nat, m: nat)
    requires AllSealed(h, entries) && k <= |Journal(entries)| && Survive(LinesOf(entries), k, m)
    ensures Final(show, state, ReadBack(h, Journal(entries)[..k])) ==
      Final(show, state, SortedEntries(entries[..m]))
  {
    CrashRead(h, entries, k, m);
    GarbledLast(show, state, SortedEntries(entries[..m]), Torn(LinesOf(entries), k, m));
  }

  lemma GarbledLast(show: Json -> string, state: State, kept: seq<Json>, torn: string)
    ensures Final(show, state, kept + if torn == "" then [] else [Garbled(torn)]) == Final(show, state, kept)
  {
    if torn == "" {
      assert kept + [] == kept;
    } else {
    }
  }
}
