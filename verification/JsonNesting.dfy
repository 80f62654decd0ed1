// Reading JSON text left to right with a bracket depth and a string flag: what every parse leaves at zero and
// no torn object does, whether the text ends there or another printed object follows.
module JsonNesting {
  import opened Common
  import opened Json

  // Outside strings, inside one, after a backslash inside one, or past anything that can be parsed.
  datatype Scan = Out(depth: nat) | In(depth: nat) | Esc(depth: nat) | Bad

  function Next(st: Scan, c: char): Scan {
    match st
    case Bad => Bad
    case Esc(d) => In(d)
    case In(d) => if c == '"' then Out(d) else if c == '\\' then Esc(d) else st
    case Out(d) =>
      if IsSpace(c) then st
      else if d == 0 || c == '\\' then Bad
      else if c == '"' then In(d)
      else if c == '{' || c == '[' then Out(d + 1)
      else if c == '}' || c == ']' then Out(d - 1)
      else st
  }

  function ScanAll(st: Scan, s: string): Scan
    decreases |s|
  {
    if s == "" then st else ScanAll(Next(st, s[0]), s[1..])
  }

  lemma {:induction false} ScanConcat(st: Scan, a: string, b: string)
    ensures ScanAll(st, a + b) == ScanAll(ScanAll(st, a), b)
    decreases |a|
  {
    if a == "" {
      assert a + b == b;
    } else {
      assert (a + b)[1..] == a[1..] + b;
      ScanConcat(Next(st, a[0]), a[1..], b);
    }
  }

  lemma {:induction false} BadStays(s: string)
    ensures ScanAll(Bad, s) == Bad
  {
    if s != "" { BadStays(s[1..]); }
  }

  // ---- what a parse consumes is balanced ----

  lemma {:induction false} SpaceScan(d: nat, s: string)
    ensures ScanAll(Out(d), s) == ScanAll(Out(d), SkipSpace(s))
  {
    if s != "" && IsSpace(s[0]) { SpaceScan(d, s[1..]); }
  }

  predicate InsideString(c: char) {
    c != '"' && c != '\\'
  }

  lemma {:induction false} InsideScan(d: nat, s: string, n: nat)
    requires n <= |s| && forall i :: 0 <= i < n ==> InsideString(s[i])
    ensures ScanAll(In(d), s) == ScanAll(In(d), s[n..])
    decreases n
  {
    if n > 0 {
      InsideScan(d, s[1..], n - 1);
      assert s[1..][n - 1..] == s[n..];
    }
  }

  lemma HexScan(d: nat, s: string)
    requires HexFour(s).Some?
    ensures ScanAll(In(d), s) == ScanAll(In(d), s[4..])
  {
    InsideScan(d, s, 4);
  }

  lemma EscapeScan(d: nat, s: string)
    requires |s| >= 2 && s[0] == '\\'
    ensures ScanAll(In(d), s) == ScanAll(In(d), s[2..])
  {
    assert s[1..][1..] == s[2..];
    assert ScanAll(In(d), s) == ScanAll(Esc(d), s[1..]);
  }

  lemma UnicodeScan(d: nat, s: string)
    requires UnicodeEscape(s).Got?
    ensures ScanAll(In(d), s) == ScanAll(In(d), UnicodeEscape(s).rest)
  {
    HexScan(d, s);
    if UnicodeEscape(s).rest != s[4..] {
      EscapeScan(d, s[4..]);
      assert s[4..][2..] == s[6..];
      HexScan(d, s[6..]);
      assert s[6..][4..] == s[10..];
    }
  }

  lemma OneCharScan(d: nat, s: string)
    requires s != "" && s[0] != '"' && OneChar(s).Got?
    ensures ScanAll(In(d), s) == ScanAll(In(d), OneChar(s).rest)
  {
    if s[0] == '\\' {
      EscapeScan(d, s);
      if s[1] == 'u' { UnicodeScan(d, s[2..]); }
    }
  }

  lemma {:induction false} CharsScan(d: nat, s: string)
    requires Chars(s).Got?
    ensures ScanAll(In(d), s) == ScanAll(Out(d), Chars(s).rest)
    decreases |s|
  {
    if s[0] != '"' {
      OneCharScan(d, s);
      CharsScan(d, OneChar(s).rest);
    }
  }

  predicate Plain(c: char) {
    c !in {'"', '\\', '{', '}', '[', ']'}
  }

  lemma {:induction false} PlainScan(d: nat, s: string, n: nat)
    requires d > 0 && n <= |s| && forall i :: 0 <= i < n ==> Plain(s[i])
    ensures ScanAll(Out(d), s) == ScanAll(Out(d), s[n..])
    decreases n
  {
    if n > 0 {
      PlainScan(d, s[1..], n - 1);
      assert s[1..][n - 1..] == s[n..];
    }
  }

  lemma {:induction false} RunPlain(s: string)
    ensures forall i :: 0 <= i < NumberRun(s) ==> Plain(s[i])
  {
    if s != "" && NumberChar(s[0]) {
      RunPlain(s[1..]);
      forall i | 0 <= i < NumberRun(s) ensures Plain(s[i]) {
        if i > 0 { assert s[i] == s[1..][i - 1]; }
      }
    }
  }

  lemma LiteralScan(d: nat, t: string, word: string, v: Json)
    requires d > 0 && word != "" && Literal(t, word, v).Got? && forall i :: 0 <= i < |word| ==> Plain(word[i])
    ensures ScanAll(Out(d), t) == ScanAll(Out(d), Literal(t, word, v).rest)
  {
    forall i | 0 <= i < |word| ensures Plain(t[i]) {
      assert t[i] == word[i];
    }
    PlainScan(d, t, |word|);
  }

  lemma ScalarScan(d: nat, t: string)
    requires d > 0 && t != "" && Scalar(t).Got?
    ensures ScanAll(Out(d), t) == ScanAll(Out(d), Scalar(t).rest)
  {
    if t[0] == 'n' {
      LiteralScan(d, t, "null", Null);
    } else if t[0] == 't' {
      LiteralScan(d, t, "true", Bool(true));
    } else if t[0] == 'f' {
      LiteralScan(d, t, "false", Bool(false));
    } else {
      RunPlain(t);
      PlainScan(d, t, NumberRun(t));
    }
  }

  lemma {:induction false} ValueScan(d: nat, s: string)
    requires d > 0 && Value(s).Got?
    ensures ScanAll(Out(d), s) == ScanAll(Out(d), Value(s).rest)
    decreases |s|, 0
  {
    var t := SkipSpace(s);
    SpaceScan(d, s);
    if t[0] == '"' {
      CharsScan(d, t[1..]);
    } else if t[0] == '[' {
      ArrayScan(d, t[1..]);
    } else if t[0] == '{' {
      ObjectScan(d, t[1..]);
    } else {
      ScalarScan(d, t);
    }
  }

  lemma {:induction false} ArrayScan(d: nat, t: string)
    requires ArrayBody(t).Got?
    ensures ScanAll(Out(d + 1), t) == ScanAll(Out(d), ArrayBody(t).rest)
    decreases |t|, 2
  {
    var u := SkipSpace(t);
    SpaceScan(d + 1, t);
    if u == "" || u[0] != ']' { ItemsScan(d, t); }
  }

  lemma {:induction false} ObjectScan(d: nat, t: string)
    requires ObjectBody(t).Got?
    ensures ScanAll(Out(d + 1), t) == ScanAll(Out(d), ObjectBody(t).rest)
    decreases |t|, 2
  {
    var u := SkipSpace(t);
    SpaceScan(d + 1, t);
    if u == "" || u[0] != '}' { FieldsScan(d, t, []); }
  }

  lemma {:induction false} ItemsScan(d: nat, s: string)
    requires Items(s).Got?
    ensures ScanAll(Out(d + 1), s) == ScanAll(Out(d), Items(s).rest)
    decreases |s|, 1
  {
    var v := Value(s);
    ValueScan(d + 1, s);
    SpaceScan(d + 1, v.rest);
    var u := SkipSpace(v.rest);
    if u[0] == ',' { ItemsScan(d, u[1..]); }
  }

  lemma KeyScan(d: nat, s: string)
    requires d > 0 && Key(s).Got?
    ensures ScanAll(Out(d), s) == ScanAll(Out(d), Key(s).rest)
  {
    var t := SkipSpace(s);
    SpaceScan(d, s);
    CharsScan(d, t[1..]);
    SpaceScan(d, Chars(t[1..]).rest);
  }

  lemma {:induction false} FieldsScan(d: nat, s: string, before: seq<Field>)
    requires Fields(s, before).Got?
    ensures ScanAll(Out(d + 1), s) == ScanAll(Out(d), Fields(s, before).rest)
    decreases |s|, 1
  {
    var k := Key(s);
    KeyScan(d + 1, s);
    var v := Value(k.rest);
    ValueScan(d + 1, k.rest);
    SpaceScan(d + 1, v.rest);
    var u := SkipSpace(v.rest);
    if u[0] == ',' { FieldsScan(d, u[1..], SetField(before, k.value, v.value)); }
  }

  // Text that opens an object and parses comes back to depth zero outside strings.
  lemma ParsedCloses(s: string)
    requires s != "" && s[0] == '{' && Parse(s).Some?
    ensures ScanAll(Out(1), s[1..]) == Out(0)
  {
    assert SkipSpace(s) == s;
    ObjectScan(0, s[1..]);
    SpaceScan(0, Value(s).rest);
  }

  // ---- prefixes of printed objects ----

  lemma ObjectStarts(fields: seq<Field>)
    ensures var p := Print(Obj(fields)); |p| > 1 && p[0] == '{' && p[|p| - 1] == '}'
  {
  }

  lemma PrintedCloses(fields: seq<Field>)
    requires WellFormed(Obj(fields))
    ensures Print(Obj(fields)) != "" && ScanAll(Out(1), Print(Obj(fields))[1..]) == Out(0)
  {
    ObjectStarts(fields);
    RoundTrip(Obj(fields));
    ParsedCloses(Print(Obj(fields)));
  }

  // Once the outer object is closed only spaces may follow.
  lemma {:induction false} ClosedTail(q: string)
    requires q != "" && !IsSpace(q[|q| - 1])
    ensures ScanAll(Out(0), q) == Bad
  {
    if IsSpace(q[0]) {
      ClosedTail(q[1..]);
    } else {
      BadStays(q[1..]);
    }
  }

  // A proper prefix of a printed object leaves a bracket or a string open.
  lemma PrefixOpen(fields: seq<Field>, n: nat)
    requires WellFormed(Obj(fields)) && 0 < n < |Print(Obj(fields))|
    ensures var st := ScanAll(Out(1), Print(Obj(fields))[1..n]); st != Bad && st != Out(0)
  {
    var p := Print(Obj(fields));
    var st := ScanAll(Out(1), p[1..n]);
    ObjectStarts(fields);
    PrintedCloses(fields);
    assert p[1..] == p[1..n] + p[n..];
    ScanConcat(Out(1), p[1..n], p[n..]);
    BadStays(p[n..]);
    ClosedTail(p[n..]);
  }

  // Two readings of the same text, one outside a string exactly when the other is inside one, stay so until
  // one of them goes wrong.
  predicate Flipped(st: Scan, ft: Scan) {
    || st.Bad? || ft.Bad?
    || (st.Out? && ft.In?) || (st.In? && ft.Out?)
  }

  lemma {:induction false} FlipStays(st: Scan, ft: Scan, s: string)
    requires Flipped(st, ft)
    ensures Flipped(ScanAll(st, s), ScanAll(ft, s))
    decreases |s|
  {
    if st.Bad? || ft.Bad? {
      BadStays(s);
    } else if s != "" {
      FlipStays(Next(st, s[0]), Next(ft, s[0]), s[1..]);
    }
  }

  // Wherever the reading of some opened text stands, a printed object after it does not lead to depth zero.
  lemma ObjectDoesNotClose(st: Scan, fields: seq<Field>)
    requires WellFormed(Obj(fields))
    ensures ScanAll(st, Print(Obj(fields))) != Out(0)
  {
    var p := Print(Obj(fields));
    ObjectStarts(fields);
    PrintedCloses(fields);
    match st {
      case Bad => BadStays(p);
      case Out(d) =>
        if d == 0 {
          ClosedTail(p);
        } else {
          ValueBack(Obj(fields), "");
          assert p + "" == p;
          ValueScan(d, p);
        }
      case In(d) => FlipStays(Out(1), In(d), p[1..]);
      case Esc(d) => FlipStays(Out(1), In(d), p[1..]);
    }
  }

  // No proper prefix of a printed object parses.
  lemma TornObjectFails(fields: seq<Field>, n: nat)
    requires WellFormed(Obj(fields)) && n < |Print(Obj(fields))|
    ensures Parse(Print(Obj(fields))[..n]) == None
  {
    var t := Print(Obj(fields))[..n];
    ObjectStarts(fields);
    if n > 0 {
      PrefixOpen(fields, n);
      assert t[1..] == Print(Obj(fields))[1..n];
      if Parse(t).Some? { ParsedCloses(t); }
    }
  }

  // No text that begins with a brace parses when a printed object is glued to its end.
  lemma GluedObjectFails(text: string, next: seq<Field>)
    requires WellFormed(Obj(next)) && text != "" && text[0] == '{'
    ensures Parse(text + Print(Obj(next))) == None
  {
    var s := text + Print(Obj(next));
    ObjectDoesNotClose(ScanAll(Out(1), text[1..]), next);
    assert s[1..] == text[1..] + Print(Obj(next));
    ScanConcat(Out(1), text[1..], Print(Obj(next)));
    if Parse(s).Some? { ParsedCloses(s); }
  }
}
