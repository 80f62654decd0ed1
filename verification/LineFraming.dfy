// A file made of newline-terminated lines: what survives when it is cut at any point.
module LineFraming {

  // split("\n")
  function Lines(s: string): (r: seq<string>)
    ensures r != []
  {
    if s == "" then [""]
    else
      var rest := Lines(s[1..]);
      if s[0] == '\n' then [""] + rest else [[s[0]] + rest[0]] + rest[1..]
  }

  // Empty lines are skipped.
  function ReadLines<T>(read: string -> T, lines: seq<string>): seq<T> {
    if lines == [] then []
    else (if lines[0] == "" then [] else [read(lines[0])]) + ReadLines(read, lines[1..])
  }

  function ReadText<T>(read: string -> T, text: string): seq<T> {
    ReadLines(read, Lines(text))
  }

  function Framed(lines: seq<string>): string {
    if lines == [] then "" else lines[0] + "\n" + Framed(lines[1..])
  }

  predicate ProperLine(line: string) {
    line != "" && '\n' !in line
  }

  predicate ProperLines(lines: seq<string>) {
    forall i :: 0 <= i < |lines| ==> ProperLine(lines[i])
  }

  // The length of the first m lines.
  ghost function Size(lines: seq<string>, m: nat): nat
    requires m <= |lines|
  {
    |Framed(lines[..m])|
  }

  // m is the number of lines that lie, newline aside, in the first k characters.
  ghost predicate Survive(lines: seq<string>, k: nat, m: nat) {
    && m <= |lines|
    && (m == 0 || Size(lines, m) <= k + 1)
    && (m == |lines| || k + 1 < Size(lines, m + 1))
  }

  // What is left of the first line that did not survive.
  ghost function Torn(lines: seq<string>, k: nat, m: nat): string
    requires m <= |lines| && k <= |Framed(lines)|
  {
    if k <= Size(lines, m) then "" else Framed(lines)[Size(lines, m)..k]
  }

  lemma {:induction false} LinesSplit(line: string, rest: string)
    requires '\n' !in line
    ensures Lines(line) == [line]
    ensures Lines(line + "\n" + rest) == [line] + Lines(rest)
  {
    var s := line + "\n" + rest;
    if line == "" {
      assert s == "\n" + rest && s[1..] == rest;
    } else {
      LinesSplit(line[1..], rest);
      assert s[1..] == line[1..] + "\n" + rest;
      assert [line[0]] + line[1..] == line;
      assert line[0] in line;
    }
  }

  lemma ReadOneLine<T>(read: string -> T, line: string, rest: string)
    requires ProperLine(line)
    ensures ReadText(read, line) == [read(line)]
    ensures ReadText(read, line + "\n" + rest) == [read(line)] + ReadText(read, rest)
  {
    LinesSplit(line, rest);
    assert ReadLines(read, [line]) == [read(line)] + ReadLines(read, []);
    var lines := [line] + Lines(rest);
    assert lines[1..] == Lines(rest);
  }

  lemma SizeStep(lines: seq<string>, m: nat)
    requires 0 < m <= |lines|
    ensures Size(lines, m) == |lines[0]| + 1 + Size(lines[1..], m - 1)
    ensures Size(lines, 0) == 0
  {
    assert lines[..m][1..] == lines[1..][..m - 1];
  }

  // Every cut point leaves some number of whole lines.
  lemma {:induction false} SomeSurvive(lines: seq<string>, k: nat) returns (m: nat)
    requires ProperLines(lines) && k <= |Framed(lines)|
    ensures Survive(lines, k, m)
    decreases |lines|
  {
    m := 0;
    if lines != [] {
      var n := |lines[0]|;
      SizeStep(lines, 1);
      if k == n {
        m := 1;
        if |lines| > 1 {
          assert ProperLine(lines[1]);
          SizeStep(lines, 2);
          SizeStep(lines[1..], 1);
        }
      } else if k > n {
        m := SomeSurvive(lines[1..], k - n - 1);
        if m < |lines[1..]| { SizeStep(lines, m + 2); }
        m := m + 1;
        SizeStep(lines, m);
      }
    }
  }

  lemma SurviveStep(lines: seq<string>, k: nat, m: nat)
    requires lines != [] && k > |lines[0]| && Survive(lines, k, m)
    ensures m > 0 && Survive(lines[1..], k - |lines[0]| - 1, m - 1)
  {
    SizeStep(lines, 1);
    if m > 0 { SizeStep(lines, m); }
    if m < |lines| { SizeStep(lines, m + 1); }
  }

  lemma Cut(head: string, rest: string, whole: nat, j: nat)
    requires j <= |rest|
    ensures (head + rest)[..|head| + j] == head + rest[..j]
    ensures whole <= j ==> (head + rest)[|head| + whole..|head| + j] == rest[whole..j]
  {
  }

  lemma TornStep(lines: seq<string>, k: nat, m: nat)
    requires lines != [] && 0 < m <= |lines| && |lines[0]| < k <= |Framed(lines)|
    ensures var j := k - |lines[0]| - 1;
      j <= |Framed(lines[1..])| && Torn(lines, k, m) == Torn(lines[1..], j, m - 1)
  {
    SizeStep(lines, m);
    Cut(lines[0] + "\n", Framed(lines[1..]), Size(lines[1..], m - 1), k - |lines[0]| - 1);
  }

  lemma CutStep(lines: seq<string>, k: nat)
    requires lines != [] && |lines[0]| < k <= |Framed(lines)|
    ensures var j := k - |lines[0]| - 1;
      j <= |Framed(lines[1..])| && Framed(lines)[..k] == lines[0] + "\n" + Framed(lines[1..])[..j]
  {
  }

  lemma SizeOfTwo(lines: seq<string>, m: nat)
    requires ProperLines(lines) && 1 < m <= |lines|
    ensures Size(lines, m) > |lines[0]| + 2
  {
    SizeStep(lines, m);
    SizeStep(lines[1..], m - 1);
    assert ProperLine(lines[1]);
  }

  lemma FirstLineCut<T>(read: string -> T, lines: seq<string>, k: nat, m: nat)
    requires ProperLines(lines) && lines != [] && k <= |lines[0]| && Survive(lines, k, m)
    ensures k <= |Framed(lines)|
    ensures m == (if k < |lines[0]| then 0 else 1)
    ensures Torn(lines, k, m) == (if k < |lines[0]| then lines[0][..k] else "")
    ensures ReadText(read, Framed(lines)[..k]) == if k == 0 then [] else [read(lines[0][..k])]
  {
    var line := lines[0];
    assert ProperLine(line);
    SizeStep(lines, 1);
    if m > 1 { SizeOfTwo(lines, m); }
    assert Framed(lines)[..k] == line[..k];
    if k == 0 {
    } else {
      assert ProperLine(line[..k]);
      ReadOneLine(read, line[..k], "");
    }
  }

  // Cut the file anywhere: what reads back is what the first m lines read as, then at most one torn line.
  lemma {:induction false} CutRead<T>(read: string -> T, lines: seq<string>, k: nat, m: nat)
    requires ProperLines(lines) && k <= |Framed(lines)| && Survive(lines, k, m)
    ensures ReadText(read, Framed(lines)[..k]) ==
      ReadLines(read, lines[..m]) + if Torn(lines, k, m) == "" then [] else [read(Torn(lines, k, m))]
    decreases |lines|
  {
    if lines == [] {
    } else if k <= |lines[0]| {
      FirstLineCut(read, lines, k, m);
      CutFirst(read, lines, k, m);
    } else {
      SurviveStep(lines, k, m);
      TornStep(lines, k, m);
      CutRead(read, lines[1..], k - |lines[0]| - 1, m - 1);
      CutReadStep(read, lines, k, m, Torn(lines, k, m));
    }
  }

  lemma CutReadStep<T>(read: string -> T, lines: seq<string>, k: nat, m: nat, torn: string)
    requires ProperLines(lines) && 0 < m <= |lines| && |lines[0]| < k <= |Framed(lines)|
    requires var j := k - |lines[0]| - 1;
      && j <= |Framed(lines[1..])|
      && ReadText(read, Framed(lines[1..])[..j]) ==
        ReadLines(read, lines[1..][..m - 1]) + if torn == "" then [] else [read(torn)]
    ensures ReadText(read, Framed(lines)[..k]) ==
      ReadLines(read, lines[..m]) + if torn == "" then [] else [read(torn)]
  {
    CutStep(lines, k);
    CutRest(read, lines, Framed(lines[1..])[..k - |lines[0]| - 1], m);
  }

  lemma CutFirst<T>(read: string -> T, lines: seq<string>, k: nat, m: nat)
    requires ProperLines(lines) && lines != [] && k <= |lines[0]| && m == (if k < |lines[0]| then 0 else 1)
    ensures ReadLines(read, lines[..m]) == if m == 0 then [] else [read(lines[0][..k])]
  {
    assert ProperLine(lines[0]);
    if m == 1 {
      assert lines[0][..k] == lines[0];
      assert lines[..1] == [lines[0]] && [lines[0]][1..] == [];
    }
  }

  lemma CutRest<T>(read: string -> T, lines: seq<string>, rest: string, m: nat)
    requires ProperLines(lines) && 0 < m <= |lines|
    ensures ReadText(read, lines[0] + "\n" + rest) == [read(lines[0])] + ReadText(read, rest)
    ensures ReadLines(read, lines[..m]) == [read(lines[0])] + ReadLines(read, lines[1..][..m - 1])
  {
    assert ProperLine(lines[0]);
    ReadOneLine(read, lines[0], rest);
    assert lines[..m][1..] == lines[1..][..m - 1];
  }

  // The torn line is a proper prefix of the first line that did not survive.
  lemma {:induction false} TornIsPrefix(lines: seq<string>, k: nat, m: nat)
    requires ProperLines(lines) && k <= |Framed(lines)| && Survive(lines, k, m) && Torn(lines, k, m) != ""
    ensures m < |lines| && |Torn(lines, k, m)| < |lines[m]|
    ensures Torn(lines, k, m) == lines[m][..|Torn(lines, k, m)|]
    decreases |lines|
  {
    if lines == [] {
    } else if k <= |lines[0]| {
      FirstLineCut(l => 0, lines, k, m);
    } else {
      SurviveStep(lines, k, m);
      TornStep(lines, k, m);
      TornIsPrefix(lines[1..], k - |lines[0]| - 1, m - 1);
    }
  }

  lemma TornNotEnded(lines: seq<string>, k: nat, m: nat)
    requires ProperLines(lines) && k <= |Framed(lines)| && Survive(lines, k, m) && Torn(lines, k, m) != ""
    ensures k > 0 && Framed(lines)[k - 1] != '\n'
  {
    var torn := Torn(lines, k, m);
    TornIsPrefix(lines, k, m);
    assert ProperLine(lines[m]);
    assert torn[|torn| - 1] == Framed(lines)[k - 1];
    assert lines[m][|torn| - 1] in lines[m];
  }

  lemma {:induction false} ReadLinesAre<T>(read: string -> T, lines: seq<string>, out: seq<T>)
    requires |out| == |lines| && ProperLines(lines) && forall i :: 0 <= i < |lines| ==> read(lines[i]) == out[i]
    ensures ReadLines(read, lines) == out
  {
    if lines != [] {
      assert ProperLine(lines[0]);
      ReadLinesAre(read, lines[1..], out[1..]);
    }
  }

  // Nothing is lost when nothing is cut.
  lemma WholeRead<T>(read: string -> T, lines: seq<string>)
    requires ProperLines(lines)
    ensures ReadText(read, Framed(lines)) == ReadLines(read, lines)
  {
    var n := |Framed(lines)|;
    assert lines[..|lines|] == lines && Framed(lines)[..n] == Framed(lines);
    CutRead(read, lines, n, |lines|);
  }

  lemma {:induction false} FramedAppend(lines: seq<string>, line: string)
    ensures Framed(lines + [line]) == Framed(lines) + line + "\n"
  {
    if lines == [] {
      assert ([] + [line])[1..] == [];
    } else {
      FramedAppend(lines[1..], line);
      assert (lines + [line])[1..] == lines[1..] + [line];
      Reassociate(lines[0] + "\n", Framed(lines[1..]), line);
    }
  }

  lemma Reassociate(a: string, b: string, c: string)
    ensures a + (b + c + "\n") == (a + b) + c + "\n"
  {
  }

  lemma ReadLinesStep<T>(read: string -> T, lines: seq<string>, i: nat)
    requires i < |lines|
    ensures ReadLines(read, lines[i..]) ==
      (if lines[i] == "" then [] else [read(lines[i])]) + ReadLines(read, lines[i + 1..])
  {
  }

  lemma Prepend<T>(out: seq<T>, one: seq<T>, rest: seq<T>)
    ensures out + (one + rest) == (out + one) + rest
  {
  }

  method ReadEach<T>(read: string -> T, file: string) returns (out: seq<T>)
    ensures out == ReadText(read, file)
  {
    out := [];
    var lines := Lines(file);
    for i := 0 to |lines|
      invariant out + ReadLines(read, lines[i..]) == ReadLines(read, lines)
    {
      ReadLinesStep(read, lines, i);
      var one := if lines[i] == "" then [] else [read(lines[i])];
      Prepend(out, one, ReadLines(read, lines[i + 1..]));
      out := out + one;
    }
    assert lines[|lines|..] == [];
  }

  // ---- adding a line to any file ----

  predicate Ended(file: string) {
    file == "" || file[|file| - 1] == '\n'
  }

  // The part of a file up to its last newline, and the unended line after it.
  predicate Splits(file: string, body: string, tail: string) {
    file == body + tail && Ended(body) && '\n' !in tail
  }

  lemma {:induction false} SomeSplit(file: string) returns (body: string, tail: string)
    ensures Splits(file, body, tail)
    decreases |file|
  {
    body, tail := file, "";
    if !Ended(file) {
      var n := |file| - 1;
      body, tail := SomeSplit(file[..n]);
      tail := tail + [file[n]];
      assert file == file[..n] + [file[n]];
      assert file[..n] + [file[n]] == body + tail;
    }
  }

  lemma SplitEnded(file: string, body: string, tail: string)
    requires Splits(file, body, tail)
    ensures tail == "" <==> Ended(file)
  {
    if tail != "" {
      assert file[|file| - 1] == tail[|tail| - 1];
      assert tail[|tail| - 1] in tail;
    } else {
      assert file == body;
    }
  }

  lemma {:induction false} FirstLine(a: string) returns (line: string, rest: string)
    requires a != "" && Ended(a)
    ensures a == line + "\n" + rest && '\n' !in line && Ended(rest)
    decreases |a|
  {
    if a[0] == '\n' {
      line, rest := "", a[1..];
    } else {
      line, rest := FirstLine(a[1..]);
      assert a == [a[0]] + a[1..];
      line := [a[0]] + line;
    }
  }

  lemma ReadFirst<T>(read: string -> T, line: string, rest: string)
    requires '\n' !in line
    ensures ReadText(read, line + "\n" + rest) == (if line == "" then [] else [read(line)]) + ReadText(read, rest)
  {
    LinesSplit(line, rest);
    assert ([line] + Lines(rest))[1..] == Lines(rest);
  }

  lemma JoinTexts(line: string, rest: string, more: string)
    ensures line + "\n" + rest + more == line + "\n" + (rest + more)
  {
  }

  lemma JoinReads<T>(one: seq<T>, rest: seq<T>, more: seq<T>)
    ensures one + rest + more == one + (rest + more)
  {
  }

  lemma {:induction false} ConcatStep<T>(read: string -> T, line: string, rest: string, more: string)
    requires '\n' !in line
    requires ReadText(read, rest + more) == ReadText(read, rest) + ReadText(read, more)
    ensures ReadText(read, line + "\n" + rest + more) == ReadText(read, line + "\n" + rest) + ReadText(read, more)
  {
    JoinTexts(line, rest, more);
    ReadFirst(read, line, rest);
    ReadFirst(read, line, rest + more);
    JoinReads(if line == "" then [] else [read(line)], ReadText(read, rest), ReadText(read, more));
  }

  // Reading a file that ends in a newline and more text is reading the two one after the other.
  lemma {:induction false} ReadConcat<T>(read: string -> T, a: string, b: string)
    requires Ended(a)
    ensures ReadText(read, a + b) == ReadText(read, a) + ReadText(read, b)
    decreases |a|
  {
    if a == "" {
      assert a + b == b;
      assert Lines("") == [""] && [""][1..] == [];
    } else {
      var line, rest := FirstLine(a);
      ReadConcat(read, rest, b);
      ConcatStep(read, line, rest, b);
    }
  }

  lemma {:induction false} ReadEnding<T>(read: string -> T, body: string, tail: string)
    requires Ended(body) && '\n' !in tail
    ensures ReadText(read, body + tail) == ReadText(read, body) + if tail == "" then [] else [read(tail)]
  {
    ReadConcat(read, body, tail);
    if tail == "" {
      assert Lines("") == [""] && [""][1..] == [];
    } else {
      ReadOneLine(read, tail, "");
    }
  }

  lemma {:induction false} ReadGlued<T>(read: string -> T, body: string, line: string)
    requires Ended(body) && ProperLine(line)
    ensures ReadText(read, body + (line + "\n" + "")) == ReadText(read, body) + [read(line)]
  {
    ReadConcat(read, body, line + "\n" + "");
    ReadFirst(read, line, "");
    assert Lines("") == [""] && [""][1..] == [];
  }

  lemma GlueTexts(body: string, tail: string, line: string)
    ensures body + tail + line + "\n" == body + ((tail + line) + "\n" + "")
  {
  }

  // A line added to a file runs into the unended last line, if there is one.
  lemma {:induction false} ReadAdded<T>(read: string -> T, file: string, body: string, tail: string, line: string)
    requires Splits(file, body, tail) && ProperLine(line)
    ensures ReadText(read, file + line + "\n") == ReadText(read, body) + [read(tail + line)]
    ensures ReadText(read, file) == ReadText(read, body) + if tail == "" then [] else [read(tail)]
  {
    GlueTexts(body, tail, line);
    ReadGlued(read, body, tail + line);
    ReadEnding(read, body, tail);
  }

  // Every line that is not empty begins with a brace.
  ghost predicate Braced(file: string) {
    forall i :: 0 <= i < |file| && LineStart(file, i) ==> file[i] == '{' || file[i] == '\n'
  }

  predicate LineStart(file: string, i: nat)
    requires i < |file|
  {
    i == 0 || file[i - 1] == '\n'
  }

  lemma BracedCut(file: string, k: nat)
    requires Braced(file) && k <= |file|
    ensures Braced(file[..k])
  {
    forall i | 0 <= i < k && LineStart(file[..k], i) ensures file[i] == '{' || file[i] == '\n' {
      assert LineStart(file, i);
    }
  }

  lemma BracedTail(file: string, body: string, tail: string)
    requires Braced(file) && Splits(file, body, tail) && tail != ""
    ensures tail[0] == '{'
  {
    var i := |body|;
    assert file[i] == tail[0] && tail[0] in tail;
    assert i > 0 ==> file[i - 1] == body[i - 1];
    assert LineStart(file, i);
  }

  lemma BracedAdded(file: string, line: string)
    requires Braced(file) && ProperLine(line) && line[0] == '{'
    ensures Braced(file + line + "\n")
  {
    var more := file + line + "\n";
    forall j | |file| <= j < |file| + |line| ensures more[j] != '\n' {
      assert more[j] == line[j - |file|] && line[j - |file|] in line;
    }
    forall i | 0 <= i < |more| && LineStart(more, i) ensures more[i] == '{' || more[i] == '\n' {
      if i < |file| { assert LineStart(file, i); }
    }
  }
}
