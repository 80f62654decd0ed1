// JSON values, their text as the host language prints it, and a parser for the RFC 8259 grammar.
// Numbers are kept as their text; strings are sequences of Unicode scalar values.
module Json {
  import opened Common

  datatype Json =
    | Null | Bool(b: bool) | Num(text: string) | Str(s: string)
    | Arr(items: seq<Json>) | Obj(fields: seq<Field>)

  datatype Field = Field(key: string, value: Json)

  // ---- printing ----

  function HexDigit(n: nat): char
    requires n < 16
  {
    "0123456789abcdef"[n]
  }

  function EscapeChar(c: char): string {
    if c == '"' then "\\\""
    else if c == '\\' then "\\\\"
    else if c == 8 as char then "\\b"
    else if c == 12 as char then "\\f"
    else if c == '\n' then "\\n"
    else if c == '\r' then "\\r"
    else if c == '\t' then "\\t"
    else if c < ' ' then ['\\', 'u', '0', '0', HexDigit(c as int / 16), HexDigit(c as int % 16)]
    else [c]
  }

  function Escape(s: string): string {
    if s == "" then "" else EscapeChar(s[0]) + Escape(s[1..])
  }

  function Quote(s: string): string {
    "\"" + Escape(s) + "\""
  }

  // JSON.stringify, fields in enumeration order.
  function Print(v: Json): string
    decreases v, 0
  {
    match v
    case Null => "null"
    case Bool(b) => if b then "true" else "false"
    case Num(t) => t
    case Str(s) => Quote(s)
    case Arr(items) => if items == [] then "[]" else "[" + PrintItems(items) + "]"
    case Obj(fields) => if fields == [] then "{}" else "{" + PrintFields(fields) + "}"
  }

  function PrintItems(items: seq<Json>): string
    requires items != []
    decreases items, 1
  {
    if |items| == 1 then Print(items[0]) else Print(items[0]) + "," + PrintItems(items[1..])
  }

  function PrintFields(fields: seq<Field>): string
    requires fields != []
    decreases fields, 1
  {
    var head := Quote(fields[0].key) + ":" + Print(fields[0].value);
    if |fields| == 1 then head else head + "," + PrintFields(fields[1..])
  }

  // ---- parsing ----

  datatype Parsed<+T> = Fail | Got(value: T, rest: string)

  predicate IsSpace(c: char) { c == ' ' || c == '\t' || c == '\n' || c == '\r' }

  function SkipSpace(s: string): (r: string)
    ensures |r| <= |s| && (r != "" ==> !IsSpace(r[0]))
  {
    if s != "" && IsSpace(s[0]) then SkipSpace(s[1..]) else s
  }

  predicate Digit(c: char) { '0' <= c <= '9' }

  predicate NumberChar(c: char) { Digit(c) || c == '-' || c == '+' || c == '.' || c == 'e' || c == 'E' }

  // The longest prefix made of characters that can occur in a number.
  function NumberRun(s: string): (n: nat)
    ensures n <= |s|
  {
    if s != "" && NumberChar(s[0]) then 1 + NumberRun(s[1..]) else 0
  }

  function DropDigits(s: string): (r: string)
    ensures |r| <= |s|
  {
    if s != "" && Digit(s[0]) then DropDigits(s[1..]) else s
  }

  // The text after an exponent part, an optional fraction, and so on, of a number; section 6 of RFC 8259.
  predicate NumberTail(s: string) {
    var s1 := if s != "" && s[0] == '.' then (if |s| > 1 && Digit(s[1]) then Some(DropDigits(s[1..])) else None) else Some(s);
    s1.Some? && (s1.value == "" || ExponentPart(s1.value))
  }

  predicate ExponentPart(s: string)
    requires s != ""
  {
    && (s[0] == 'e' || s[0] == 'E')
    && var d := if |s| > 1 && (s[1] == '+' || s[1] == '-') then s[2..] else s[1..];
       d != "" && DropDigits(d) == ""
  }

  predicate IsNumber(s: string) {
    var u := if s != "" && s[0] == '-' then s[1..] else s;
    && u != "" && Digit(u[0])
    && NumberTail(if u[0] == '0' then u[1..] else DropDigits(u))
  }

  function HexValue(c: char): Option<int> {
    if '0' <= c <= '9' then Some(c as int - '0' as int)
    else if 'a' <= c <= 'f' then Some(c as int - 'a' as int + 10)
    else if 'A' <= c <= 'F' then Some(c as int - 'A' as int + 10)
    else None
  }

  function HexFour(s: string): (r: Option<int>)
    ensures r.Some? ==> 0 <= r.value < 0x1_0000 && |s| >= 4
  {
    if |s| < 4 then None
    else
      var a, b, c, d := HexValue(s[0]), HexValue(s[1]), HexValue(s[2]), HexValue(s[3]);
      if a.None? || b.None? || c.None? || d.None? then None
      else Some(((a.value * 16 + b.value) * 16 + c.value) * 16 + d.value)
  }

  // One \u escape after its backslash and u: a scalar value, or a surrogate pair.
  function UnicodeEscape(s: string): (r: Parsed<char>)
    ensures r.Got? ==> |r.rest| < |s|
  {
    var h := HexFour(s);
    if h.None? then Fail
    else if h.value < 0xD800 || h.value >= 0xE000 then Got(h.value as char, s[4..])
    else if h.value < 0xDC00 && |s| >= 10 && s[4] == '\\' && s[5] == 'u' then
      var l := HexFour(s[6..]);
      if l.Some? && 0xDC00 <= l.value < 0xE000 then
        Got((0x1_0000 + (h.value - 0xD800) * 0x400 + (l.value - 0xDC00)) as char, s[10..])
      else Fail
    else Fail
  }

  function SimpleEscape(c: char): Option<char> {
    if c == '"' || c == '\\' || c == '/' then Some(c)
    else if c == 'b' then Some(8 as char)
    else if c == 'f' then Some(12 as char)
    else if c == 'n' then Some('\n')
    else if c == 'r' then Some('\r')
    else if c == 't' then Some('\t')
    else None
  }

  // One possibly escaped character of a string.
  function OneChar(s: string): (r: Parsed<char>)
    requires s != ""
    ensures r.Got? ==> |r.rest| < |s|
  {
    if s[0] < ' ' then Fail
    else if s[0] != '\\' then Got(s[0], s[1..])
    else if |s| == 1 then Fail
    else if s[1] == 'u' then UnicodeEscape(s[2..])
    else if SimpleEscape(s[1]).Some? then Got(SimpleEscape(s[1]).value, s[2..])
    else Fail
  }

  // The rest of a string after its opening quote.
  function Chars(s: string): (r: Parsed<string>)
    ensures r.Got? ==> |r.rest| < |s|
    decreases |s|
  {
    if s == "" then Fail
    else if s[0] == '"' then Got("", s[1..])
    else
      var c := OneChar(s);
      if c.Fail? then Fail
      else
        var more := Chars(c.rest);
        if more.Fail? then Fail else Got([c.value] + more.value, more.rest)
  }

  // Assigning a property: an existing key keeps its place and takes the new value.
  function SetField(fields: seq<Field>, key: string, value: Json): seq<Field> {
    if fields == [] then [Field(key, value)]
    else if fields[0].key == key then [Field(key, value)] + fields[1..]
    else [fields[0]] + SetField(fields[1..], key, value)
  }

  function Literal(s: string, word: string, v: Json): (r: Parsed<Json>)
    requires word != ""
    ensures r.Got? ==> |r.rest| < |s|
  {
    if word <= s then Got(v, s[|word|..]) else Fail
  }

  function Number(s: string): (r: Parsed<Json>)
    ensures r.Got? ==> |r.rest| < |s|
  {
    var n := NumberRun(s);
    if n > 0 && IsNumber(s[..n]) then Got(Num(s[..n]), s[n..]) else Fail
  }

  // A literal or a number.
  function Scalar(t: string): (r: Parsed<Json>)
    requires t != ""
    ensures r.Got? ==> |r.rest| < |t|
  {
    if t[0] == 'n' then Literal(t, "null", Null)
    else if t[0] == 't' then Literal(t, "true", Bool(true))
    else if t[0] == 'f' then Literal(t, "false", Bool(false))
    else Number(t)
  }

  function StringBody(t: string): (r: Parsed<Json>)
    ensures r.Got? ==> |r.rest| < |t|
  {
    var c := Chars(t);
    if c.Fail? then Fail else Got(Str(c.value), c.rest)
  }

  function Value(s: string): (r: Parsed<Json>)
    ensures r.Got? ==> |r.rest| < |s|
    decreases |s|, 0
  {
    var t := SkipSpace(s);
    if t == "" then Fail
    else if t[0] == '"' then StringBody(t[1..])
    else if t[0] == '[' then ArrayBody(t[1..])
    else if t[0] == '{' then ObjectBody(t[1..])
    else Scalar(t)
  }

  function AsArray(items: Parsed<seq<Json>>): Parsed<Json> {
    if items.Fail? then Fail else Got(Arr(items.value), items.rest)
  }

  function AsObject(fields: Parsed<seq<Field>>): Parsed<Json> {
    if fields.Fail? then Fail else Got(Obj(fields.value), fields.rest)
  }

  function ArrayBody(t: string): (r: Parsed<Json>)
    ensures r.Got? ==> |r.rest| < |t|
    decreases |t|, 2
  {
    var u := SkipSpace(t);
    if u != "" && u[0] == ']' then Got(Arr([]), u[1..])
    else
      AsArray(Items(t))
  }

  function ObjectBody(t: string): (r: Parsed<Json>)
    ensures r.Got? ==> |r.rest| < |t|
    decreases |t|, 2
  {
    var u := SkipSpace(t);
    if u != "" && u[0] == '}' then Got(Obj([]), u[1..])
    else
      AsObject(Fields(t, []))
  }

  function Items(s: string): (r: Parsed<seq<Json>>)
    ensures r.Got? ==> |r.rest| < |s|
    decreases |s|, 1
  {
    var v := Value(s);
    if v.Fail? then Fail
    else
      var u := SkipSpace(v.rest);
      if u == "" then Fail
      else if u[0] == ']' then Got([v.value], u[1..])
      else if u[0] == ',' then
        var more := Items(u[1..]);
        if more.Fail? then Fail else Got([v.value] + more.value, more.rest)
      else Fail
  }

  // A key and its colon.
  function Key(s: string): (r: Parsed<string>)
    ensures r.Got? ==> |r.rest| < |s|
  {
    var t := SkipSpace(s);
    if t == "" || t[0] != '"' then Fail
    else
      var k := Chars(t[1..]);
      if k.Fail? then Fail
      else
        var u := SkipSpace(k.rest);
        if u == "" || u[0] != ':' then Fail else Got(k.value, u[1..])
  }

  function Fields(s: string, before: seq<Field>): (r: Parsed<seq<Field>>)
    ensures r.Got? ==> |r.rest| < |s|
    decreases |s|, 1
  {
    var k := Key(s);
    if k.Fail? then Fail
    else
      var v := Value(k.rest);
      if v.Fail? then Fail
      else
        var u := SkipSpace(v.rest);
        var fields := SetField(before, k.value, v.value);
        if u == "" then Fail
        else if u[0] == '}' then Got(fields, u[1..])
        else if u[0] == ',' then Fields(u[1..], fields)
        else Fail
  }

  // JSON.parse.
  function Parse(s: string): Option<Json> {
    var v := Value(s);
    if v.Got? && SkipSpace(v.rest) == "" then Some(v.value) else None
  }

  // ---- well-formed values: valid number texts, distinct keys ----

  predicate DistinctFieldKeys(fields: seq<Field>) {
    forall i, j :: 0 <= i < j < |fields| ==> fields[i].key != fields[j].key
  }

  predicate WellFormed(v: Json) {
    match v
    case Num(t) => IsNumber(t)
    case Arr(items) => forall x :: x in items ==> WellFormed(x)
    case Obj(fields) => DistinctFieldKeys(fields) && forall f :: f in fields ==> WellFormed(f.value)
    case _ => true
  }

  // ---- parsing undoes printing ----

  // A number text may be followed by anything that cannot continue it.
  predicate Delimited(r: string) {
    r == "" || !NumberChar(r[0])
  }

  lemma {:induction false} RunOf(t: string, r: string)
    requires (forall i :: 0 <= i < |t| ==> NumberChar(t[i])) && Delimited(r)
    ensures NumberRun(t + r) == |t|
  {
    if t == "" {
      assert t + r == r;
    } else {
      assert (t + r)[1..] == t[1..] + r;
      RunOf(t[1..], r);
    }
  }

  lemma {:induction false} DropDigitsKeeps(s: string)
    requires forall i :: 0 <= i < |DropDigits(s)| ==> NumberChar(DropDigits(s)[i])
    ensures forall i :: 0 <= i < |s| ==> NumberChar(s[i])
  {
    if s != "" && Digit(s[0]) {
      assert DropDigits(s) == DropDigits(s[1..]);
      DropDigitsKeeps(s[1..]);
      forall i | 0 <= i < |s| ensures NumberChar(s[i]) {
        if i > 0 { assert s[i] == s[1..][i - 1]; }
      }
    } else {
      assert DropDigits(s) == s;
    }
  }

  lemma NumberTailChars(s: string)
    requires NumberTail(s)
    ensures forall i :: 0 <= i < |s| ==> NumberChar(s[i])
  {
    var s1 := if s != "" && s[0] == '.' then DropDigits(s[1..]) else s;
    if s1 != "" {
      var d := if |s1| > 1 && (s1[1] == '+' || s1[1] == '-') then s1[2..] else s1[1..];
      DropDigitsKeeps(d);
      forall i | 0 <= i < |s1| ensures NumberChar(s1[i]) {
        var off := |s1| - |d|;
        if i >= off { assert s1[i] == d[i - off]; }
      }
    }
    if s != "" && s[0] == '.' {
      DropDigitsKeeps(s[1..]);
      forall i | 0 <= i < |s| ensures NumberChar(s[i]) {
        if i > 0 { assert s[i] == s[1..][i - 1]; }
      }
    }
  }

  lemma NumberChars(t: string)
    requires IsNumber(t)
    ensures t != "" && (forall i :: 0 <= i < |t| ==> NumberChar(t[i])) && (t[0] == '-' || Digit(t[0]))
  {
    var u := if t[0] == '-' then t[1..] else t;
    if u[0] == '0' {
      NumberTailChars(u[1..]);
      forall i | 0 <= i < |u| ensures NumberChar(u[i]) {
        if i > 0 { assert u[i] == u[1..][i - 1]; }
      }
    } else {
      NumberTailChars(DropDigits(u));
      DropDigitsKeeps(u);
    }
    forall i | 0 <= i < |t| ensures NumberChar(t[i]) {
      if t[0] == '-' && i > 0 { assert t[i] == u[i - 1]; }
    }
  }

  lemma OneCharBack(c: char, r: string)
    ensures var s := EscapeChar(c) + r; s != "" && s[0] != '"' && OneChar(s) == Got(c, r)
  {
  }

  lemma CharsStep(c: char, more: string)
    requires Chars(more).Got?
    ensures Chars(EscapeChar(c) + more) == Got([c] + Chars(more).value, Chars(more).rest)
  {
    OneCharBack(c, more);
  }

  lemma {:induction false} CharsBack(t: string, r: string)
    ensures Chars(Escape(t) + "\"" + r) == Got(t, r)
  {
    if t == "" {
      assert Escape(t) + "\"" + r == "\"" + r;
    } else {
      var more := Escape(t[1..]) + "\"" + r;
      assert Escape(t) + "\"" + r == EscapeChar(t[0]) + more;
      CharsBack(t[1..], r);
      CharsStep(t[0], more);
      assert [t[0]] + t[1..] == t;
    }
  }

  lemma QuoteBack(t: string, r: string)
    ensures var s := Quote(t) + r; s != "" && s[0] == '"' && SkipSpace(s) == s && Chars(s[1..]) == Got(t, r)
  {
    var s := Quote(t) + r;
    assert s[1..] == Escape(t) + "\"" + r;
    CharsBack(t, r);
  }

  lemma {:induction false} SetFieldAppends(fields: seq<Field>, f: Field)
    requires forall g :: g in fields ==> g.key != f.key
    ensures SetField(fields, f.key, f.value) == fields + [f]
  {
    if fields != [] {
      SetFieldAppends(fields[1..], f);
    }
  }

  // What a printed value starts with.
  lemma PrintStart(v: Json)
    requires WellFormed(v)
    ensures Print(v) != "" && !IsSpace(Print(v)[0]) && Print(v)[0] !in {']', '}', ',', ':'}
  {
  }

  lemma ScalarBack(v: Json, r: string)
    requires WellFormed(v) && Delimited(r) && (v.Null? || v.Bool? || v.Num?)
    ensures Value(Print(v) + r) == Got(v, r)
  {
    var p := Print(v);
    var s := p + r;
    PrintStart(v);
    assert s[0] == p[0] && s[..|p|] == p && s[|p|..] == r;
    if v.Num? {
      NumberChars(v.text);
      RunOf(v.text, r);
    }
    assert Scalar(s) == Got(v, r);
  }

  lemma StringBack(t: string, r: string)
    ensures Value(Quote(t) + r) == Got(Str(t), r)
  {
    QuoteBack(t, r);
  }

  lemma EmptyBack(r: string)
    ensures Value("[]" + r) == Got(Arr([]), r)
    ensures Value("{}" + r) == Got(Obj([]), r)
  {
  }

  lemma ObjectBack(body: string)
    requires SkipSpace(body) == body && body != "" && body[0] != '}'
    ensures Value("{" + body) == AsObject(Fields(body, []))
  {
  }

  lemma {:induction false} ValueBack(v: Json, r: string)
    requires WellFormed(v) && Delimited(r)
    ensures Value(Print(v) + r) == Got(v, r)
    decreases v, 0
  {
    match v {
      case Str(t) => StringBack(t, r);
      case Arr(items) => if items == [] { EmptyBack(r); } else { ItemsBack(items, r); ArrayText(items, r); }
      case Obj(fields) => if fields == [] { EmptyBack(r); } else { FieldsBack(fields, r); ObjectText(fields, r); }
      case _ => ScalarBack(v, r);
    }
  }

  lemma ArrayText(items: seq<Json>, r: string)
    requires items != []
    requires ItemsParse(items, r)
    ensures Value(Print(Arr(items)) + r) == Got(Arr(items), r)
  {
    var body := PrintItems(items) + "]" + r;
    assert Print(Arr(items)) + r == "[" + body;
  }

  lemma ObjectText(fields: seq<Field>, r: string)
    requires fields != []
    requires FieldsParse(fields, [], r)
    ensures Value(Print(Obj(fields)) + r) == Got(Obj(fields), r)
  {
    var body := PrintFields(fields) + "}" + r;
    assert [] + fields == fields;
    ObjectBack(body);
    assert Print(Obj(fields)) + r == "{" + body;
  }

  // One element, then a closing bracket or a comma and more.
  lemma ItemStep(s: string, v: Json, tail: string)
    requires Value(s) == Got(v, tail) && tail != ""
    ensures tail[0] == ']' ==> Items(s) == Got([v], tail[1..])
    ensures tail[0] == ',' && Items(tail[1..]).Got? ==>
      Items(s) == Got([v] + Items(tail[1..]).value, Items(tail[1..]).rest)
  {
  }

  lemma StartsLike(v: Json, tail: string)
    requires WellFormed(v)
    ensures var s := Print(v) + tail; s != "" && SkipSpace(s) == s && s[0] !in {']', '}', ',', ':'}
  {
  }

  predicate ItemsParse(items: seq<Json>, r: string)
    requires items != []
  {
    var s := PrintItems(items) + "]" + r;
    Items(s) == Got(items, r) && SkipSpace(s) == s && s[0] != ']'
  }

  lemma Regroup(head: string, sep: string, rest: string, close: string, r: string)
    ensures head + sep + rest + close + r == head + (sep + (rest + close + r))
    ensures head + close + r == head + (close + r)
  {
  }

  lemma ItemsTextStep(items: seq<Json>, r: string)
    requires items != []
    ensures PrintItems(items) + "]" + r ==
      Print(items[0]) + (if |items| == 1 then "]" + r else "," + (PrintItems(items[1..]) + "]" + r))
  {
    Regroup(Print(items[0]), ",", if |items| == 1 then "" else PrintItems(items[1..]), "]", r);
  }

  lemma NextItem(items: seq<Json>, tail: string, r: string)
    requires items != [] && WellFormed(items[0]) && Value(Print(items[0]) + tail) == Got(items[0], tail)
    requires tail == if |items| == 1 then "]" + r else "," + (PrintItems(items[1..]) + "]" + r)
    requires |items| > 1 ==> ItemsParse(items[1..], r)
    ensures ItemsParse(items, r)
  {
    ItemsTextStep(items, r);
    StartsLike(items[0], tail);
    ItemStep(Print(items[0]) + tail, items[0], tail);
    if |items| == 1 {
      assert tail[1..] == r && items == [items[0]];
    } else {
      assert tail[1..] == PrintItems(items[1..]) + "]" + r;
      assert items == [items[0]] + items[1..];
    }
  }

  lemma {:induction false} ItemsBack(items: seq<Json>, r: string)
    requires items != [] && forall x :: x in items ==> WellFormed(x)
    ensures ItemsParse(items, r)
    decreases items, 1
  {
    var tail := "]" + r;
    if |items| > 1 {
      ItemsBack(items[1..], r);
      tail := "," + (PrintItems(items[1..]) + "]" + r);
    }
    ValueBack(items[0], tail);
    NextItem(items, tail, r);
  }

  lemma KeyBack(k: string, r: string)
    ensures var s := Quote(k) + ":" + r; Key(s) == Got(k, r) && SkipSpace(s) == s && s[0] != '}'
  {
    var tail := ":" + r;
    assert Quote(k) + ":" + r == Quote(k) + tail;
    QuoteBack(k, tail);
    assert SkipSpace(tail) == tail && tail[1..] == r;
  }

  // One field, then a closing brace or a comma and more.
  lemma FieldStep(s: string, before: seq<Field>, f: Field, mid: string, tail: string)
    requires Key(s) == Got(f.key, mid) && Value(mid) == Got(f.value, tail) && tail != ""
    requires forall g :: g in before ==> g.key != f.key
    ensures tail[0] == '}' ==> Fields(s, before) == Got(before + [f], tail[1..])
    ensures tail[0] == ',' ==> Fields(s, before) == Fields(tail[1..], before + [f])
  {
    SetFieldAppends(before, f);
    if !IsSpace(tail[0]) { assert SkipSpace(tail) == tail; }
  }

  lemma FreshKey(before: seq<Field>, fields: seq<Field>)
    requires fields != [] && DistinctFieldKeys(before + fields)
    ensures forall g :: g in before ==> g.key != fields[0].key
  {
    forall g | g in before ensures g.key != fields[0].key {
      var i :| 0 <= i < |before| && before[i] == g;
      assert (before + fields)[i] == g && (before + fields)[|before|] == fields[0];
    }
  }

  // The text of the fields and the closing brace, one field at a time.
  lemma FieldsTextStep(fields: seq<Field>, r: string)
    requires fields != []
    ensures PrintFields(fields) + "}" + r == Quote(fields[0].key) + ":" + Print(fields[0].value) +
      (if |fields| == 1 then "}" + r else "," + (PrintFields(fields[1..]) + "}" + r))
  {
    var head := Quote(fields[0].key) + ":" + Print(fields[0].value);
    Regroup(head, ",", if |fields| == 1 then "" else PrintFields(fields[1..]), "}", r);
  }

  lemma FieldText(f: Field, s: string, before: seq<Field>, tail: string)
    requires s == Quote(f.key) + ":" + Print(f.value) + tail && tail != ""
    requires Value(Print(f.value) + tail) == Got(f.value, tail)
    requires forall g :: g in before ==> g.key != f.key
    ensures SkipSpace(s) == s && s != "" && s[0] != '}'
    ensures tail[0] == '}' ==> Fields(s, before) == Got(before + [f], tail[1..])
    ensures tail[0] == ',' ==> Fields(s, before) == Fields(tail[1..], before + [f])
  {
    var mid := Print(f.value) + tail;
    assert s == Quote(f.key) + ":" + mid;
    KeyBack(f.key, mid);
    FieldStep(s, before, f, mid, tail);
  }

  predicate FieldsParse(fields: seq<Field>, before: seq<Field>, r: string)
    requires fields != []
  {
    var s := PrintFields(fields) + "}" + r;
    Fields(s, before) == Got(before + fields, r) && SkipSpace(s) == s && s[0] != '}'
  }

  lemma LastField(f: Field, before: seq<Field>, r: string)
    requires Value(Print(f.value) + ("}" + r)) == Got(f.value, "}" + r)
    requires forall g :: g in before ==> g.key != f.key
    ensures FieldsParse([f], before, r)
  {
    FieldsTextStep([f], r);
    FieldText(f, PrintFields([f]) + "}" + r, before, "}" + r);
    assert ("}" + r)[1..] == r;
  }

  lemma NextField(fields: seq<Field>, before: seq<Field>, r: string)
    requires |fields| > 1 && FieldsParse(fields[1..], before + [fields[0]], r)
    requires var tail := "," + (PrintFields(fields[1..]) + "}" + r);
      Value(Print(fields[0].value) + tail) == Got(fields[0].value, tail)
    requires forall g :: g in before ==> g.key != fields[0].key
    ensures FieldsParse(fields, before, r)
  {
    var more := PrintFields(fields[1..]) + "}" + r;
    FieldsTextStep(fields, r);
    FieldText(fields[0], PrintFields(fields) + "}" + r, before, "," + more);
    assert ("," + more)[1..] == more;
    assert (before + [fields[0]]) + fields[1..] == before + fields;
  }

  lemma {:induction false} FieldsFrom(fields: seq<Field>, before: seq<Field>, r: string)
    requires fields != [] && DistinctFieldKeys(before + fields) && forall f :: f in fields ==> WellFormed(f.value)
    ensures FieldsParse(fields, before, r)
    decreases fields, 1
  {
    assert fields[0] in fields;
    FreshKey(before, fields);
    if |fields| == 1 {
      ValueBack(fields[0].value, "}" + r);
      LastField(fields[0], before, r);
      assert fields == [fields[0]];
    } else {
      assert (before + [fields[0]]) + fields[1..] == before + fields;
      FieldsFrom(fields[1..], before + [fields[0]], r);
      ValueBack(fields[0].value, "," + (PrintFields(fields[1..]) + "}" + r));
      NextField(fields, before, r);
    }
  }

  lemma {:induction false} FieldsBack(fields: seq<Field>, r: string)
    requires fields != [] && WellFormed(Obj(fields))
    ensures FieldsParse(fields, [], r)
    decreases fields, 2
  {
    assert [] + fields == fields;
    FieldsFrom(fields, [], r);
  }

  // Printing then parsing gives the value back, so printing is injective.
  lemma RoundTrip(v: Json)
    requires WellFormed(v)
    ensures Parse(Print(v)) == Some(v)
  {
    ValueBack(v, "");
    assert Print(v) + "" == Print(v);
  }

  lemma PrintInjective(v: Json, w: Json)
    requires WellFormed(v) && WellFormed(w) && Print(v) == Print(w)
    ensures v == w
  {
    RoundTrip(v);
    RoundTrip(w);
  }

  // ---- printed text has no line break ----

  lemma EscapeCharOneLine(c: char)
    ensures '\n' !in EscapeChar(c)
  {
  }

  lemma {:induction false} EscapeOneLine(s: string)
    ensures '\n' !in Escape(s)
  {
    if s != "" {
      EscapeCharOneLine(s[0]);
      EscapeOneLine(s[1..]);
    }
  }

  lemma {:induction false} PrintOneLine(v: Json)
    requires WellFormed(v)
    ensures '\n' !in Print(v)
    decreases v, 0
  {
    match v
    case Num(t) => NumberChars(t);
    case Str(s) => EscapeOneLine(s);
    case Arr(items) => if items != [] { ItemsOneLine(items); }
    case Obj(fields) => if fields != [] { FieldsOneLine(fields); }
    case _ =>
  }

  lemma {:induction false} ItemsOneLine(items: seq<Json>)
    requires items != [] && forall x :: x in items ==> WellFormed(x)
    ensures '\n' !in PrintItems(items)
    decreases items, 1
  {
    PrintOneLine(items[0]);
    if |items| > 1 { ItemsOneLine(items[1..]); }
  }

  lemma {:induction false} FieldsOneLine(fields: seq<Field>)
    requires fields != [] && forall f :: f in fields ==> WellFormed(f.value)
    ensures '\n' !in PrintFields(fields)
    decreases fields, 1
  {
    assert fields[0] in fields;
    EscapeOneLine(fields[0].key);
    PrintOneLine(fields[0].value);
    if |fields| > 1 { FieldsOneLine(fields[1..]); }
  }
}
