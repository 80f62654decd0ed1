// Comparing an observation with what was expected, field by field, and the verdict over the findings.
// Numbers are reals with NaN and the infinities; objects are lists of own properties.
module Assessment {
  import opened Common

  datatype Number = Fin(r: real) | NaN | PosInf | NegInf

  datatype Val =
    | Undefined | Null | Bool(b: bool) | Num(n: Number) | Str(s: string)
    | Arr(items: seq<Val>) | Obj(fields: seq<Property>)

  datatype Property = Property(key: string, value: Val)

  datatype Result = SUPPORTED | INCONCLUSIVE | CONTRADICTED

  datatype Finding = Finding(result: Result, path: string, expected: Val, actual: Val, reason: string)

  function Find(fields: seq<Property>, key: string): (r: Option<Val>)
    ensures r.Some? ==> Property(key, r.value) in fields
    ensures r.None? <==> forall f :: f in fields ==> f.key != key
  {
    if fields == [] then None
    else if fields[0].key == key then Some(fields[0].value)
    else Find(fields[1..], key)
  }

  // ---- scalars ----

  predicate Missing(v: Val) {
    v.Undefined? || v.Null?
  }

  function Abs(x: real): real {
    if x < 0.0 then -x else x
  }

  // |e - a| <= |e| * 0.1 + 0.01 in the arithmetic of NaN and infinities
  predicate WithinTolerance(e: Number, a: Number) {
    match (e, a)
    case (Fin(x), Fin(y)) => Abs(x - y) <= Abs(x) / 10.0 + 0.01
    case (Fin(_), _) => false
    case (NaN, _) => false
    case (_, NaN) => false
    case (PosInf, PosInf) => false
    case (NegInf, NegInf) => false
    case _ => true
  }

  predicate Includes(text: string, part: string) {
    part <= text || (text != "" && Includes(text[1..], part))
  }

  predicate Placeholder(s: string) {
    s == "pending" || s == "unknown" || s == "not applicable"
  }

  function ClassifyScalar(e: Val, a: Val): Result {
    if Missing(e) || Missing(a) then INCONCLUSIVE
    else
      match (e, a)
      case (Bool(x), Bool(y)) => if x == y then SUPPORTED else CONTRADICTED
      case (Num(x), Num(y)) => if (x == y && !x.NaN?) || WithinTolerance(x, y) then SUPPORTED else CONTRADICTED
      case (Str(x), Str(y)) =>
        if x == y then SUPPORTED
        else if Placeholder(y) then INCONCLUSIVE
        else if Includes(y, x) || Includes(x, y) then SUPPORTED
        else CONTRADICTED
      case _ => CONTRADICTED
  }

  function ValueFindings(e: Val, a: Val, path: string): seq<Finding> {
    if Missing(e) then [Finding(INCONCLUSIVE, path, e, a, "expected value missing")]
    else if Missing(a) then [Finding(CONTRADICTED, path, e, a, "actual value missing")]
    else [Finding(ClassifyScalar(e, a), path, e, a, "")]
  }

  // ---- objects and arrays ----

  function KeyPath(path: string, key: string): string {
    if path == "" then key else path + "." + key
  }

  function IndexPath(path: string, i: nat): string {
    path + "[" + Decimal(i) + "]"
  }

  function PairFindings(e: Val, a: Val, path: string): seq<Finding>
    decreases e, 1
  {
    if e.Arr? && a.Arr? then ArrayFindings(e, a, path)
    else if (e.Arr? || e.Obj?) && a.Obj? then ObjectFindings(e, a, path)
    else ValueFindings(e, a, path)
  }

  function ObjectFindings(e: Val, a: Val, path: string): seq<Finding>
    decreases e, 0
  {
    if !e.Obj? then [Finding(INCONCLUSIVE, path, e, a, "expected is not an object")]
    else if !a.Obj? then [Finding(CONTRADICTED, path, e, a, "actual is not an object")]
    else KeyFindings(e.fields, a.fields, path) + ExtraKeys(e.fields, a.fields, path)
  }

  function KeyFinding(f: Property, afs: seq<Property>, path: string): seq<Finding>
    decreases f, 0
  {
    match Find(afs, f.key)
    case None => [Finding(CONTRADICTED, KeyPath(path, f.key), f.value, Undefined, "missing key")]
    case Some(x) => PairFindings(f.value, x, KeyPath(path, f.key))
  }

  function KeyFindings(efs: seq<Property>, afs: seq<Property>, path: string): seq<Finding>
    decreases efs, 2
  {
    if efs == [] then [] else KeyFinding(efs[0], afs, path) + KeyFindings(efs[1..], afs, path)
  }

  function ExtraKey(efs: seq<Property>, f: Property, path: string): seq<Finding> {
    if Find(efs, f.key).Some? then []
    else [Finding(INCONCLUSIVE, KeyPath(path, f.key), Undefined, f.value, "extra key")]
  }

  function ExtraKeys(efs: seq<Property>, afs: seq<Property>, path: string): seq<Finding> {
    if afs == [] then [] else ExtraKey(efs, afs[0], path) + ExtraKeys(efs, afs[1..], path)
  }

  function ArrayFindings(e: Val, a: Val, path: string): seq<Finding>
    decreases e, 0
  {
    if !e.Arr? || !a.Arr? then [Finding(INCONCLUSIVE, path, e, a, "expected/actual is not an array")]
    else if e.items == [] && a.items == [] then [Finding(SUPPORTED, path, e, a, "both arrays empty")]
    else if e.items == [] then [Finding(INCONCLUSIVE, path, e, a, "expected empty, actual has extras")]
    else ElementFindings(e.items, a.items, 0, path) + ExtraElements(a.items, |e.items|, path)
  }

  function ElementFinding(e: Val, xs: seq<Val>, i: nat, path: string): seq<Finding>
    decreases e, 2
  {
    if i >= |xs| then [Finding(CONTRADICTED, IndexPath(path, i), e, Undefined, "missing array element")]
    else PairFindings(e, xs[i], IndexPath(path, i))
  }

  // The expected elements from position i on.
  function ElementFindings(es: seq<Val>, xs: seq<Val>, i: nat, path: string): seq<Finding>
    decreases es, 2
  {
    if es == [] then [] else ElementFinding(es[0], xs, i, path) + ElementFindings(es[1..], xs, i + 1, path)
  }

  function ExtraElements(xs: seq<Val>, i: nat, path: string): seq<Finding>
    decreases |xs| - i
  {
    if i >= |xs| then []
    else [Finding(INCONCLUSIVE, IndexPath(path, i), Undefined, xs[i], "extra array element")] + ExtraElements(xs, i + 1, path)
  }

  function TopFindings(e: Val, a: Val): seq<Finding> {
    if Missing(e) then [Finding(INCONCLUSIVE, "", e, a, "no expected value provided")]
    else if Missing(a) then [Finding(CONTRADICTED, "", e, a, "no actual value provided")]
    else PairFindings(e, a, "")
  }

  // ---- the comparisons as they run ----

  method ComparePair(e: Val, a: Val, path: string) returns (r: seq<Finding>)
    ensures r == PairFindings(e, a, path)
    decreases e, 1
  {
    if e.Arr? && a.Arr? {
      r := CompareArray(e, a, path);
    } else if (e.Arr? || e.Obj?) && a.Obj? {
      r := CompareObject(e, a, path);
    } else {
      r := ValueFindings(e, a, path);
    }
  }

  method CompareObject(e: Val, a: Val, path: string) returns (findings: seq<Finding>)
    ensures findings == ObjectFindings(e, a, path)
    decreases e, 0
  {
    if !e.Obj? {
      return [Finding(INCONCLUSIVE, path, e, a, "expected is not an object")];
    }
    if !a.Obj? {
      return [Finding(CONTRADICTED, path, e, a, "actual is not an object")];
    }
    findings := CompareExpectedKeys(e.fields, a.fields, path);
    var extras := ReportExtraKeys(e.fields, a.fields, path);
    findings := findings + extras;
  }

  // What has been found so far, and what the expected keys from i on will add.
  ghost predicate FindingKeys(efs: seq<Property>, afs: seq<Property>, path: string, i: nat, findings: seq<Finding>)
    requires i <= |efs|
  {
    findings + KeyFindings(efs[i..], afs, path) == KeyFindings(efs, afs, path)
  }

  lemma FindingKeysStart(efs: seq<Property>, afs: seq<Property>, path: string)
    ensures FindingKeys(efs, afs, path, 0, [])
  {
    assert efs[0..] == efs;
  }

  lemma {:induction false} FindingKeysStep(efs: seq<Property>, afs: seq<Property>, path: string, i: nat,
      findings: seq<Finding>)
    requires i < |efs| && FindingKeys(efs, afs, path, i, findings)
    ensures FindingKeys(efs, afs, path, i + 1, findings + KeyFinding(efs[i], afs, path))
  {
    assert efs[i..][1..] == efs[i + 1..];
    var head, rest := KeyFinding(efs[i], afs, path), KeyFindings(efs[i + 1..], afs, path);
    assert findings + (head + rest) == (findings + head) + rest;
  }

  lemma FindingKeysEnd(efs: seq<Property>, afs: seq<Property>, path: string, findings: seq<Finding>)
    requires FindingKeys(efs, afs, path, |efs|, findings)
    ensures findings == KeyFindings(efs, afs, path)
  {
    assert efs[|efs|..] == [];
  }

  method CompareExpectedKeys(efs: seq<Property>, afs: seq<Property>, path: string) returns (findings: seq<Finding>)
    ensures findings == KeyFindings(efs, afs, path)
    decreases efs, 2
  {
    findings := [];
    FindingKeysStart(efs, afs, path);
    for i := 0 to |efs|
      invariant FindingKeys(efs, afs, path, i, findings)
    {
      FindingKeysStep(efs, afs, path, i, findings);
      var found := Find(afs, efs[i].key);
      if found.None? {
        findings := findings +
          [Finding(CONTRADICTED, KeyPath(path, efs[i].key), efs[i].value, Undefined, "missing key")];
        continue;
      }
      var more := ComparePair(efs[i].value, found.value, KeyPath(path, efs[i].key));
      findings := findings + more;
    }
    FindingKeysEnd(efs, afs, path, findings);
  }

  method ReportExtraKeys(efs: seq<Property>, afs: seq<Property>, path: string) returns (findings: seq<Finding>)
    ensures findings == ExtraKeys(efs, afs, path)
  {
    findings := [];
    for i := 0 to |afs|
      invariant findings + ExtraKeys(efs, afs[i..], path) == ExtraKeys(efs, afs, path)
    {
      ghost var block := ExtraKey(efs, afs[i], path);
      ghost var before := findings;
      if Find(efs, afs[i].key).None? {
        findings := findings +
          [Finding(INCONCLUSIVE, KeyPath(path, afs[i].key), Undefined, afs[i].value, "extra key")];
      }
      assert findings == before + block;
    }
    assert afs[|afs|..] == [];
  }

  method CompareArray(e: Val, a: Val, path: string) returns (findings: seq<Finding>)
    ensures findings == ArrayFindings(e, a, path)
    decreases e, 0
  {
    findings := [];
    if !e.Arr? || !a.Arr? {
      return [Finding(INCONCLUSIVE, path, e, a, "expected/actual is not an array")];
    }
    var es, xs := e.items, a.items;
    if es == [] && xs == [] {
      return [Finding(SUPPORTED, path, e, a, "both arrays empty")];
    }
    if es == [] {
      return [Finding(INCONCLUSIVE, path, e, a, "expected empty, actual has extras")];
    }
    for i := 0 to |es|
      invariant findings + ElementFindings(es[i..], xs, i, path) == ElementFindings(es, xs, 0, path)
    {
      if i >= |xs| {
        findings := findings + [Finding(CONTRADICTED, IndexPath(path, i), es[i], Undefined, "missing array element")];
        continue;
      }
      var more := ComparePair(es[i], xs[i], IndexPath(path, i));
      findings := findings + more;
    }
    assert es[|es|..] == [] && findings == ElementFindings(es, xs, 0, path);
    ghost var before := findings;
    var i := |es|;
    while i < |xs|
      invariant |es| <= i
      invariant findings + ExtraElements(xs, i, path) == before + ExtraElements(xs, |es|, path)
    {
      findings := findings + [Finding(INCONCLUSIVE, IndexPath(path, i), Undefined, xs[i], "extra array element")];
      i := i + 1;
    }
  }

  datatype Summary = Summary(supported: nat, contradicted: nat, inconclusive: nat, total: nat)

  function CountOf(findings: seq<Finding>, result: Result): nat {
    if findings == [] then 0
    else (if findings[0].result == result then 1 else 0) + CountOf(findings[1..], result)
  }

  function SummaryOf(findings: seq<Finding>): Summary {
    Summary(CountOf(findings, SUPPORTED), CountOf(findings, CONTRADICTED), CountOf(findings, INCONCLUSIVE), |findings|)
  }

  method Summarize(findings: seq<Finding>) returns (summary: Summary)
    ensures summary == SummaryOf(findings)
    ensures summary.total == summary.supported + summary.contradicted + summary.inconclusive
  {
    var supported, contradicted, inconclusive := 0, 0, 0;
    for i := 0 to |findings|
      invariant supported + CountOf(findings[i..], SUPPORTED) == CountOf(findings, SUPPORTED)
      invariant contradicted + CountOf(findings[i..], CONTRADICTED) == CountOf(findings, CONTRADICTED)
      invariant inconclusive + CountOf(findings[i..], INCONCLUSIVE) == CountOf(findings, INCONCLUSIVE)
      invariant supported + contradicted + inconclusive == i
    {
      assert findings[i..][1..] == findings[i + 1..];
      match findings[i].result {
        case SUPPORTED => supported := supported + 1;
        case CONTRADICTED => contradicted := contradicted + 1;
        case INCONCLUSIVE => inconclusive := inconclusive + 1;
      }
    }
    summary := Summary(supported, contradicted, inconclusive, |findings|);
  }

  function Aggregate(summary: Summary): Result {
    if summary.contradicted > 0 then CONTRADICTED
    else if summary.inconclusive > 0 then INCONCLUSIVE
    else if summary.supported > 0 then SUPPORTED
    else INCONCLUSIVE
  }

  function Verdict(e: Val, a: Val): Result {
    Aggregate(SummaryOf(TopFindings(e, a)))
  }

  method CreateAssessment(e: Val, a: Val) returns (result: Result, summary: Summary, findings: seq<Finding>)
    ensures findings == TopFindings(e, a) && summary == SummaryOf(findings) && result == Verdict(e, a)
    ensures ScalarRule(e, a, result)
    ensures e.Obj? && a.Obj? ==> (result == CONTRADICTED <==> SomeContradicted(e.fields, a.fields))
    ensures e.Arr? && e.items != [] && a.Arr? ==>
      (result == CONTRADICTED <==> exists i: nat :: i < |e.items| && ElementContradicted(e.items, a.items, i))
  {
    ScalarsJudged(e, a);
    if e.Obj? && a.Obj? { ObjectVerdict(e.fields, a.fields); }
    if e.Arr? && e.items != [] && a.Arr? { ArrayVerdict(e.items, a.items); }
    if Missing(e) {
      findings := [Finding(INCONCLUSIVE, "", e, a, "no expected value provided")];
    } else if Missing(a) {
      findings := [Finding(CONTRADICTED, "", e, a, "no actual value provided")];
    } else {
      findings := ComparePair(e, a, "");
    }
    summary := Summarize(findings);
    result := Aggregate(summary);
  }

  // ---- the verdict as a recursion over the two values ----

  // No finding at all, then the three results from best to worst.
  datatype Level = Nothing | Good | Open | Bad

  function LevelOf(r: Result): Level {
    match r case SUPPORTED => Good case INCONCLUSIVE => Open case CONTRADICTED => Bad
  }

  function Worst(x: Level, y: Level): Level {
    if x.Bad? || y.Bad? then Bad
    else if x.Open? || y.Open? then Open
    else if x.Good? || y.Good? then Good
    else Nothing
  }

  function Total(x: Level): Result {
    match x case Bad => CONTRADICTED case Open => INCONCLUSIVE case Good => SUPPORTED case Nothing => INCONCLUSIVE
  }

  function Judge(e: Val, a: Val): Level
    decreases e, 0
  {
    if Missing(e) then Open
    else if Missing(a) then Bad
    else
      match (e, a)
      case (Arr(es), Arr(xs)) =>
        if es == [] then (if xs == [] then Good else Open)
        else Worst(JudgeElements(es, xs), if |xs| > |es| then Open else Nothing)
      case (Obj(efs), Obj(afs)) =>
        Worst(JudgeKeys(efs, afs), ExtraLevel(efs, afs))
      case (Arr(_), Obj(_)) => Open
      case _ => LevelOf(ClassifyScalar(e, a))
  }

  function ExtraLevel(efs: seq<Property>, afs: seq<Property>): Level {
    if exists f :: f in afs && Find(efs, f.key).None? then Open else Nothing
  }

  function JudgeKeys(efs: seq<Property>, afs: seq<Property>): Level
    decreases efs, 1
  {
    if efs == [] then Nothing
    else
      var found := Find(afs, efs[0].key);
      Worst(if found.None? then Bad else Judge(efs[0].value, found.value), JudgeKeys(efs[1..], afs))
  }

  function JudgeElements(es: seq<Val>, xs: seq<Val>): Level
    decreases es, 1
  {
    if es == [] then Nothing
    else if xs == [] then Bad
    else Worst(Judge(es[0], xs[0]), JudgeElements(es[1..], xs[1..]))
  }

  function WorstOf(findings: seq<Finding>): Level {
    if findings == [] then Nothing else Worst(LevelOf(findings[0].result), WorstOf(findings[1..]))
  }

  lemma {:induction false} WorstConcat(a: seq<Finding>, b: seq<Finding>)
    ensures WorstOf(a + b) == Worst(WorstOf(a), WorstOf(b))
  {
    if a == [] {
      assert a + b == b;
    } else {
      assert (a + b)[1..] == a[1..] + b;
      WorstConcat(a[1..], b);
    }
  }

  lemma {:induction false} WorstOne(f: Finding)
    ensures WorstOf([f]) == LevelOf(f.result)
  {
  }

  lemma {:induction false} AggregateIsWorst(findings: seq<Finding>)
    ensures Aggregate(SummaryOf(findings)) == Total(WorstOf(findings))
    ensures WorstOf(findings) == Nothing <==> findings == []
  {
    if findings != [] { AggregateIsWorst(findings[1..]); }
  }

  lemma {:induction false} PairWorst(e: Val, a: Val, path: string)
    ensures WorstOf(PairFindings(e, a, path)) == Judge(e, a)
    decreases e, 2
  {
    if e.Arr? && a.Arr? {
      ArrayWorst(e, a, path);
    } else if e.Obj? && a.Obj? {
      ObjectWorst(e, a, path);
    } else if e.Arr? && a.Obj? {
      WorstOne(Finding(INCONCLUSIVE, path, e, a, "expected is not an object"));
    } else {
      WorstOne(ValueFindings(e, a, path)[0]);
    }
  }

  lemma {:induction false} ObjectWorst(e: Val, a: Val, path: string)
    requires e.Obj? && a.Obj?
    ensures WorstOf(ObjectFindings(e, a, path)) == Judge(e, a)
    decreases e, 1
  {
    KeysWorst(e.fields, a.fields, path);
    ExtraKeysWorst(e.fields, a.fields, path);
    WorstTwo(ObjectFindings(e, a, path), KeyFindings(e.fields, a.fields, path), ExtraKeys(e.fields, a.fields, path));
  }

  lemma {:induction false} WorstTwo(all: seq<Finding>, first: seq<Finding>, second: seq<Finding>)
    requires all == first + second
    ensures WorstOf(all) == Worst(WorstOf(first), WorstOf(second))
  {
    WorstConcat(first, second);
  }

  lemma {:induction false} KeysWorst(efs: seq<Property>, afs: seq<Property>, path: string)
    ensures WorstOf(KeyFindings(efs, afs, path)) == JudgeKeys(efs, afs)
    decreases efs, 3
  {
    if efs != [] {
      var found := Find(afs, efs[0].key);
      var head := KeyFinding(efs[0], afs, path);
      WorstConcat(head, KeyFindings(efs[1..], afs, path));
      KeysWorst(efs[1..], afs, path);
      if found.None? { WorstOne(head[0]); } else { PairWorst(efs[0].value, found.value, KeyPath(path, efs[0].key)); }
    }
  }

  lemma {:induction false} ExtraKeysWorst(efs: seq<Property>, afs: seq<Property>, path: string)
    ensures WorstOf(ExtraKeys(efs, afs, path)) == ExtraLevel(efs, afs)
  {
    if afs != [] {
      ExtraKeysWorst(efs, afs[1..], path);
      WorstConcat(ExtraKey(efs, afs[0], path), ExtraKeys(efs, afs[1..], path));
      if Find(efs, afs[0].key).None? { WorstOne(ExtraKey(efs, afs[0], path)[0]); }
      assert forall g :: g in afs <==> g == afs[0] || g in afs[1..];
    }
  }

  lemma {:induction false} ArrayWorst(e: Val, a: Val, path: string)
    requires e.Arr? && a.Arr?
    ensures WorstOf(ArrayFindings(e, a, path)) == Judge(e, a)
    decreases e, 1
  {
    if e.items == [] {
      WorstOne(ArrayFindings(e, a, path)[0]);
    } else {
      WorstConcat(ElementFindings(e.items, a.items, 0, path), ExtraElements(a.items, |e.items|, path));
      ElementsWorst(e.items, a.items, 0, path);
      assert a.items[0..] == a.items;
      ExtraElementsWorst(a.items, |e.items|, path);
    }
  }

  lemma {:induction false} ElementsWorst(es: seq<Val>, xs: seq<Val>, i: nat, path: string)
    ensures WorstOf(ElementFindings(es, xs, i, path)) == JudgeElements(es, if i <= |xs| then xs[i..] else [])
    decreases es, 3
  {
    if es != [] {
      var head := ElementFinding(es[0], xs, i, path);
      WorstConcat(head, ElementFindings(es[1..], xs, i + 1, path));
      if i >= |xs| {
        WorstOne(head[0]);
      } else {
        PairWorst(es[0], xs[i], IndexPath(path, i));
        ElementsWorst(es[1..], xs, i + 1, path);
        assert xs[i..][1..] == xs[i + 1..];
      }
    }
  }

  lemma {:induction false} ExtraElementsWorst(xs: seq<Val>, i: nat, path: string)
    ensures WorstOf(ExtraElements(xs, i, path)) == if |xs| > i then Open else Nothing
    decreases |xs| - i
  {
    if i < |xs| {
      ExtraElementsWorst(xs, i + 1, path);
      assert ExtraElements(xs, i, path)[1..] == ExtraElements(xs, i + 1, path);
    }
  }

  // The verdict over the flat list of findings is a recursion over the two values: the worst of the parts,
  // where an empty expected object contributes nothing.
  lemma {:induction false} VerdictIsJudgement(e: Val, a: Val)
    ensures Verdict(e, a) == Total(Judge(e, a))
  {
    AggregateIsWorst(TopFindings(e, a));
    if Missing(e) || Missing(a) {
      WorstOne(TopFindings(e, a)[0]);
    } else {
      PairWorst(e, a, "");
    }
  }

  // ---- the verdict on two scalars, spelled out ----

  ghost predicate OccursIn(part: string, text: string) {
    exists i :: 0 <= i <= |text| && part <= text[i..]
  }

  lemma {:induction false} IncludesIsOccurrence(text: string, part: string)
    ensures Includes(text, part) <==> OccursIn(part, text)
  {
    assert text[0..] == text;
    if !(part <= text) && text != "" {
      var rest := text[1..];
      IncludesIsOccurrence(rest, part);
      forall i | 0 <= i <= |rest| ensures rest[i..] == text[i + 1..] { }
      if i :| 0 <= i <= |text| && part <= text[i..] {
        assert i > 0 && rest[i - 1..] == text[i..];
      }
    }
  }

  // Booleans must be equal. A finite number may be off by a tenth of what was expected and a hundredth; an infinite
  // expectation is met by every number but NaN. One string must occur in the other, unless the observed one stands
  // for a value still to come. An absent expectation decides nothing, an absent observation contradicts, and so does
  // a value of another kind, except that an object observed for an expected array decides nothing.
  ghost predicate ScalarRule(e: Val, a: Val, result: Result) {
    match (e, a)
    case (Undefined, _) => result == INCONCLUSIVE
    case (Null, _) => result == INCONCLUSIVE
    case (_, Undefined) => result == CONTRADICTED
    case (_, Null) => result == CONTRADICTED
    case (Bool(x), Bool(y)) => result == if x == y then SUPPORTED else CONTRADICTED
    case (Num(Fin(x)), Num(Fin(y))) =>
      && (result == SUPPORTED <==>
            -(if x < 0.0 then -x else x) / 10.0 - 0.01 <= x - y <= (if x < 0.0 then -x else x) / 10.0 + 0.01)
      && (result == SUPPORTED || result == CONTRADICTED)
    case (Num(Fin(_)), Num(_)) => result == CONTRADICTED
    case (Num(NaN), Num(_)) => result == CONTRADICTED
    case (Num(_), Num(y)) => result == if y.NaN? then CONTRADICTED else SUPPORTED
    case (Str(x), Str(y)) =>
      result ==
      if x == y then SUPPORTED
      else if y == "pending" || y == "unknown" || y == "not applicable" then INCONCLUSIVE
      else if OccursIn(x, y) || OccursIn(y, x) then SUPPORTED
      else CONTRADICTED
    case (Arr(_), Arr(_)) => true
    case (Obj(_), Obj(_)) => true
    case (Arr(_), Obj(_)) => result == INCONCLUSIVE
    case _ => result == CONTRADICTED
  }

  lemma {:induction false} ScalarsJudged(e: Val, a: Val)
    ensures ScalarRule(e, a, Verdict(e, a))
  {
    VerdictIsJudgement(e, a);
    match (e, a) {
      case (Str(x), Str(y)) =>
        IncludesIsOccurrence(x, y);
        IncludesIsOccurrence(y, x);
      case _ =>
    }
  }

  // ---- the verdict on objects and arrays, part by part ----

  // Missing, or contradicted on its own.
  ghost predicate KeyContradicted(f: Property, afs: seq<Property>) {
    var found := Find(afs, f.key);
    found.None? || Verdict(f.value, found.value) == CONTRADICTED
  }

  // Settled without a doubt: on its own it is supported, or there was nothing to find.
  ghost predicate KeySettled(f: Property, afs: seq<Property>) {
    var found := Find(afs, f.key);
    found.Some? && (Verdict(f.value, found.value) == SUPPORTED || TopFindings(f.value, found.value) == [])
  }

  lemma {:induction false} LevelVerdict(e: Val, a: Val)
    ensures Verdict(e, a) == CONTRADICTED <==> Judge(e, a) == Bad
    ensures Verdict(e, a) == SUPPORTED <==> Judge(e, a) == Good
    ensures TopFindings(e, a) == [] <==> Judge(e, a) == Nothing
  {
    VerdictIsJudgement(e, a);
    AggregateIsWorst(TopFindings(e, a));
    if Missing(e) || Missing(a) {
      WorstOne(TopFindings(e, a)[0]);
    } else {
      PairWorst(e, a, "");
    }
  }

  ghost predicate SomeContradicted(efs: seq<Property>, afs: seq<Property>) {
    exists f :: f in efs && KeyContradicted(f, afs)
  }

  ghost predicate AllSettled(efs: seq<Property>, afs: seq<Property>) {
    forall f :: f in efs ==> KeySettled(f, afs)
  }

  lemma HeadAndRest(efs: seq<Property>, afs: seq<Property>)
    requires efs != []
    ensures SomeContradicted(efs, afs) <==> KeyContradicted(efs[0], afs) || SomeContradicted(efs[1..], afs)
    ensures AllSettled(efs, afs) <==> KeySettled(efs[0], afs) && AllSettled(efs[1..], afs)
  {
    assert forall f :: f in efs <==> f == efs[0] || f in efs[1..];
  }

  lemma {:induction false} KeysJudged(efs: seq<Property>, afs: seq<Property>)
    ensures JudgeKeys(efs, afs) == Bad <==> SomeContradicted(efs, afs)
    ensures JudgeKeys(efs, afs) in {Nothing, Good} <==> AllSettled(efs, afs)
  {
    if efs != [] {
      KeysJudged(efs[1..], afs);
      HeadAndRest(efs, afs);
      var found := Find(afs, efs[0].key);
      if found.Some? { LevelVerdict(efs[0].value, found.value); }
    }
  }

  ghost predicate NoExtras(efs: seq<Property>, afs: seq<Property>) {
    forall g :: g in afs ==> exists f :: f in efs && f.key == g.key
  }

  lemma {:induction false} ObjectLevel(efs: seq<Property>, afs: seq<Property>)
    ensures Judge(Obj(efs), Obj(afs)) == Worst(JudgeKeys(efs, afs), if NoExtras(efs, afs) then Nothing else Open)
  {
  }

  // An object is contradicted exactly when an expected key is missing or its value contradicted, whatever else was
  // observed; and it is in no doubt exactly when every expected key is settled and no other key was observed.
  lemma {:induction false} ObjectVerdict(efs: seq<Property>, afs: seq<Property>)
    ensures var verdict := Verdict(Obj(efs), Obj(afs));
      && (verdict == CONTRADICTED <==> SomeContradicted(efs, afs))
      && (verdict == SUPPORTED || TopFindings(Obj(efs), Obj(afs)) == [] <==> AllSettled(efs, afs) && NoExtras(efs, afs))
  {
    LevelVerdict(Obj(efs), Obj(afs));
    KeysJudged(efs, afs);
    ObjectLevel(efs, afs);
  }

  ghost predicate ElementContradicted(es: seq<Val>, xs: seq<Val>, i: nat)
    requires i < |es|
  {
    i >= |xs| || Verdict(es[i], xs[i]) == CONTRADICTED
  }

  ghost predicate ElementSettled(es: seq<Val>, xs: seq<Val>, i: nat)
    requires i < |es|
  {
    i < |xs| && (Verdict(es[i], xs[i]) == SUPPORTED || TopFindings(es[i], xs[i]) == [])
  }

  lemma {:induction false} ElementsJudged(es: seq<Val>, xs: seq<Val>)
    ensures JudgeElements(es, xs) == Bad <==> exists i: nat :: i < |es| && ElementContradicted(es, xs, i)
    ensures JudgeElements(es, xs) in {Nothing, Good} <==> forall i: nat :: i < |es| ==> ElementSettled(es, xs, i)
  {
    if es != [] {
      if xs == [] {
        assert ElementContradicted(es, xs, 0) && !ElementSettled(es, xs, 0);
      } else {
        LevelVerdict(es[0], xs[0]);
        ElementsJudged(es[1..], xs[1..]);
        ShiftElements(es, xs);
      }
    }
  }

  lemma {:induction false} ShiftElements(es: seq<Val>, xs: seq<Val>)
    requires es != [] && xs != []
    ensures (exists i: nat :: i < |es| && ElementContradicted(es, xs, i)) <==>
      ElementContradicted(es, xs, 0) || exists i: nat :: i < |es[1..]| && ElementContradicted(es[1..], xs[1..], i)
    ensures (forall i: nat :: i < |es| ==> ElementSettled(es, xs, i)) <==>
      ElementSettled(es, xs, 0) && forall i: nat :: i < |es[1..]| ==> ElementSettled(es[1..], xs[1..], i)
  {
    forall i: nat | i < |es[1..]|
      ensures ElementContradicted(es[1..], xs[1..], i) <==> ElementContradicted(es, xs, i + 1)
      ensures ElementSettled(es[1..], xs[1..], i) <==> ElementSettled(es, xs, i + 1)
    {
    }
    if i: nat :| i < |es| && ElementContradicted(es, xs, i) && i > 0 {
      assert ElementContradicted(es[1..], xs[1..], i - 1);
    }
    if forall i: nat :: i < |es[1..]| ==> ElementSettled(es[1..], xs[1..], i) {
      forall i: nat | 0 < i < |es| ensures ElementSettled(es, xs, i) {
        assert ElementSettled(es[1..], xs[1..], i - 1);
      }
    }
  }

  // The same for an array that is expected to have elements, position by position.
  lemma {:induction false} ArrayVerdict(es: seq<Val>, xs: seq<Val>)
    requires es != []
    ensures var verdict := Verdict(Arr(es), Arr(xs));
      && (verdict == CONTRADICTED <==> exists i: nat :: i < |es| && ElementContradicted(es, xs, i))
      && (verdict == SUPPORTED || TopFindings(Arr(es), Arr(xs)) == [] <==>
          (forall i: nat :: i < |es| ==> ElementSettled(es, xs, i)) && |xs| <= |es|)
  {
    LevelVerdict(Arr(es), Arr(xs));
    ElementsJudged(es, xs);
  }

  // So one observed boolean that is not the expected one contradicts the whole object.
  lemma {:induction false} OneWrongBoolean(efs: seq<Property>, afs: seq<Property>, key: string, b: bool)
    requires Property(key, Bool(b)) in efs && Find(afs, key) == Some(Bool(!b))
    ensures Verdict(Obj(efs), Obj(afs)) == CONTRADICTED
  {
    ScalarsJudged(Bool(b), Bool(!b));
    ObjectVerdict(efs, afs);
    assert KeyContradicted(Property(key, Bool(b)), afs);
  }

  // ---- where a finding points ----

  ghost predicate DistinctKeys(v: Val) {
    match v
    case Arr(items) => forall x :: x in items ==> DistinctKeys(x)
    case Obj(fields) =>
      && (forall i, j :: 0 <= i < j < |fields| ==> fields[i].key != fields[j].key)
      && (forall f :: f in fields ==> DistinctKeys(f.value))
    case _ => true
  }

  lemma {:induction false} FindMember(fields: seq<Property>, f: Property)
    requires f in fields && forall i, j :: 0 <= i < j < |fields| ==> fields[i].key != fields[j].key
    ensures Find(fields, f.key) == Some(f.value)
  {
  }

  datatype Step = AtKey(key: string) | AtIndex(i: nat)

  // The text of a place: keys joined by dots, positions in brackets.
  function Render(path: string, steps: seq<Step>): string
    decreases |steps|
  {
    if steps == [] then path
    else
      match steps[0]
      case AtKey(key) => Render(if path == "" then key else path + "." + key, steps[1..])
      case AtIndex(i) => Render(path + "[" + Decimal(i) + "]", steps[1..])
  }

  // What a value holds at a place.
  function Follow(v: Val, steps: seq<Step>): Val
    decreases |steps|
  {
    if steps == [] then v
    else
      match (steps[0], v)
      case (AtKey(key), Obj(fields)) =>
        var found := Find(fields, key);
        if found.Some? then Follow(found.value, steps[1..]) else Undefined
      case (AtIndex(i), Arr(items)) => if i < |items| then Follow(items[i], steps[1..]) else Undefined
      case _ => Undefined
  }

  // The finding's path is a place, and its two values are what is there.
  ghost predicate Located(f: Finding, e: Val, a: Val, path: string) {
    exists steps :: PointsTo(f, e, a, path, steps)
  }

  ghost predicate PointsTo(f: Finding, e: Val, a: Val, path: string, steps: seq<Step>) {
    f.path == Render(path, steps) && f.expected == Follow(e, steps) && f.actual == Follow(a, steps)
  }

  lemma {:induction false} FollowNothing(steps: seq<Step>)
    ensures Follow(Undefined, steps) == Undefined
  {
  }

  lemma Here(f: Finding, e: Val, a: Val, path: string)
    requires f.path == path && f.expected == e && f.actual == a
    ensures Located(f, e, a, path)
  {
    assert PointsTo(f, e, a, path, []);
  }

  lemma {:induction false} AtOneKey(f: Finding, e: Val, a: Val, path: string, key: string)
    requires e.Obj? && a.Obj?
    requires var x, y := Find(e.fields, key), Find(a.fields, key);
      && (x.Some? || y.Some?)
      && Located(f, if x.Some? then x.value else Undefined, if y.Some? then y.value else Undefined, KeyPath(path, key))
    ensures Located(f, e, a, path)
  {
    var x, y := Find(e.fields, key), Find(a.fields, key);
    var steps :| PointsTo(f, if x.Some? then x.value else Undefined, if y.Some? then y.value else Undefined,
      KeyPath(path, key), steps);
    var step := AtKey(key);
    assert ([step] + steps)[1..] == steps;
    FollowNothing(steps);
    assert PointsTo(f, e, a, path, [step] + steps);
  }

  lemma {:induction false} AtOneIndex(f: Finding, e: Val, a: Val, path: string, i: nat)
    requires e.Arr? && a.Arr?
    requires Located(f, if i < |e.items| then e.items[i] else Undefined, if i < |a.items| then a.items[i] else Undefined,
      IndexPath(path, i))
    ensures Located(f, e, a, path)
  {
    var steps :| PointsTo(f, if i < |e.items| then e.items[i] else Undefined,
      if i < |a.items| then a.items[i] else Undefined, IndexPath(path, i), steps);
    var step := AtIndex(i);
    assert ([step] + steps)[1..] == steps;
    FollowNothing(steps);
    assert PointsTo(f, e, a, path, [step] + steps);
  }

  lemma {:induction false} PairLocated(e: Val, a: Val, path: string, f: Finding)
    requires f in PairFindings(e, a, path) && DistinctKeys(e) && DistinctKeys(a)
    ensures Located(f, e, a, path)
    decreases e, 2
  {
    if e.Arr? && a.Arr? && e.items != [] {
      if f in ElementFindings(e.items, a.items, 0, path) {
        ElementLocated(e, a, 0, path, f);
      } else {
        ExtraLocated(e, a, |e.items|, path, f);
      }
    } else if e.Obj? && a.Obj? {
      if f in KeyFindings(e.fields, a.fields, path) {
        KeyLocated(e.fields, e, a, path, f);
      } else {
        ExtraKeyLocated(a.fields, e, a, path, f);
      }
    } else {
      Here(f, e, a, path);
    }
  }

  lemma {:induction false} KeyLocated(part: seq<Property>, e: Val, a: Val, path: string, f: Finding)
    requires e.Obj? && a.Obj? && DistinctKeys(e) && DistinctKeys(a) && f in KeyFindings(part, a.fields, path)
    requires forall p :: p in part ==> p in e.fields && DistinctKeys(p.value)
    ensures Located(f, e, a, path)
    decreases part, 3
  {
    var p := part[0];
    if f in KeyFinding(p, a.fields, path) {
      assert p in part;
      FindMember(e.fields, p);
      var found := Find(a.fields, p.key);
      if found.None? {
        Here(f, p.value, Undefined, KeyPath(path, p.key));
      } else {
        PairLocated(p.value, found.value, KeyPath(path, p.key), f);
      }
      AtOneKey(f, e, a, path, p.key);
    } else {
      KeyLocated(part[1..], e, a, path, f);
    }
  }

  lemma {:induction false} ExtraKeyLocated(part: seq<Property>, e: Val, a: Val, path: string, f: Finding)
    requires e.Obj? && a.Obj? && DistinctKeys(a) && f in ExtraKeys(e.fields, part, path)
    requires forall p :: p in part ==> p in a.fields
    ensures Located(f, e, a, path)
    decreases part
  {
    var p := part[0];
    if f in ExtraKey(e.fields, p, path) {
      assert p in part;
      FindMember(a.fields, p);
      Here(f, Undefined, p.value, KeyPath(path, p.key));
      AtOneKey(f, e, a, path, p.key);
    } else {
      ExtraKeyLocated(part[1..], e, a, path, f);
    }
  }

  lemma {:induction false} ElementLocated(e: Val, a: Val, i: nat, path: string, f: Finding)
    requires e.Arr? && a.Arr? && DistinctKeys(e) && DistinctKeys(a) && i <= |e.items|
    requires f in ElementFindings(e.items[i..], a.items, i, path)
    ensures Located(f, e, a, path)
    decreases e, 1, |e.items| - i
  {
    assert e.items[i..][0] == e.items[i] && e.items[i..][1..] == e.items[i + 1..];
    if f in ElementFinding(e.items[i], a.items, i, path) {
      assert e.items[i] in e.items;
      if i >= |a.items| {
        Here(f, e.items[i], Undefined, IndexPath(path, i));
      } else {
        assert a.items[i] in a.items;
        PairLocated(e.items[i], a.items[i], IndexPath(path, i), f);
      }
      AtOneIndex(f, e, a, path, i);
    } else {
      ElementLocated(e, a, i + 1, path, f);
    }
  }

  lemma {:induction false} ExtraLocated(e: Val, a: Val, i: nat, path: string, f: Finding)
    requires e.Arr? && a.Arr? && i >= |e.items| && f in ExtraElements(a.items, i, path)
    ensures Located(f, e, a, path)
    decreases |a.items| - i
  {
    if f == ExtraElements(a.items, i, path)[0] {
      Here(f, Undefined, a.items[i], IndexPath(path, i));
      AtOneIndex(f, e, a, path, i);
    } else {
      assert f in ExtraElements(a.items, i + 1, path);
      ExtraLocated(e, a, i + 1, path, f);
    }
  }

  // Every finding names the place it is about and reports what was expected and observed there.
  lemma {:induction false} FindingsLocated(e: Val, a: Val, f: Finding)
    requires f in TopFindings(e, a) && DistinctKeys(e) && DistinctKeys(a)
    ensures Located(f, e, a, "")
  {
    if Missing(e) || Missing(a) { Here(f, e, a, ""); } else { PairLocated(e, a, "", f); }
  }

  // ---- extras never contradict ----

  // b is a with properties and trailing elements added, at any depth.
  ghost predicate Extends(a: Val, b: Val)
    decreases a, 0
  {
    match (a, b)
    case (Arr(xs), Arr(ys)) => ExtendsItems(xs, ys)
    case (Obj(fs), Obj(gs)) => forall k: string :: ExtendsKey(fs, gs, k)
    case _ => a == b
  }

  ghost predicate ExtendsKey(fs: seq<Property>, gs: seq<Property>, k: string)
    decreases fs, 1
  {
    var x, y := Find(fs, k), Find(gs, k);
    x.Some? ==> assert Property(k, x.value) in fs; y.Some? && Extends(x.value, y.value)
  }

  ghost predicate ExtendsItems(xs: seq<Val>, ys: seq<Val>)
    decreases xs, 1
  {
    xs != [] ==> ys != [] && Extends(xs[0], ys[0]) && ExtendsItems(xs[1..], ys[1..])
  }

  lemma {:induction false} ExtrasJudged(e: Val, a: Val, b: Val)
    requires Extends(a, b) && Judge(e, a) != Bad
    ensures Judge(e, b) != Bad
    decreases e, 0
  {
    match (e, a, b) {
      case (Arr(es), Arr(xs), Arr(ys)) => if es != [] { ExtraItemsJudged(es, xs, ys); }
      case (Obj(efs), Obj(fs), Obj(gs)) => ExtraKeysJudged(efs, fs, gs);
      case _ =>
    }
  }

  lemma {:induction false} ExtraKeysJudged(efs: seq<Property>, fs: seq<Property>, gs: seq<Property>)
    requires (forall k: string :: ExtendsKey(fs, gs, k)) && JudgeKeys(efs, fs) != Bad
    ensures JudgeKeys(efs, gs) != Bad
    decreases efs, 1
  {
    if efs != [] {
      var k := efs[0].key;
      assert ExtendsKey(fs, gs, k);
      ExtrasJudged(efs[0].value, Find(fs, k).value, Find(gs, k).value);
      ExtraKeysJudged(efs[1..], fs, gs);
    }
  }

  lemma {:induction false} ExtraItemsJudged(es: seq<Val>, xs: seq<Val>, ys: seq<Val>)
    requires ExtendsItems(xs, ys) && JudgeElements(es, xs) != Bad
    ensures JudgeElements(es, ys) != Bad
    decreases es, 1
  {
    if es != [] {
      ExtrasJudged(es[0], xs[0], ys[0]);
      ExtraItemsJudged(es[1..], xs[1..], ys[1..]);
    }
  }

  // Adding properties or elements to what was observed never turns a verdict into a contradiction.
  lemma {:induction false} ExtrasNeverContradict(e: Val, a: Val, b: Val)
    requires Extends(a, b) && Verdict(e, a) != CONTRADICTED
    ensures Verdict(e, b) != CONTRADICTED
  {
    VerdictIsJudgement(e, a);
    VerdictIsJudgement(e, b);
    ExtrasJudged(e, a, b);
  }

  // ---- a value against itself ----

  ghost predicate HasNaN(v: Val) {
    match v
    case Num(n) => n.NaN?
    case Arr(items) => exists x :: x in items && HasNaN(x)
    case Obj(fields) => exists f :: f in fields && HasNaN(f.value)
    case _ => false
  }

  lemma {:induction false} SelfJudged(v: Val)
    requires DistinctKeys(v)
    ensures Judge(v, v) == Bad <==> HasNaN(v)
    decreases v, 0
  {
    match v {
      case Arr(items) => if items != [] { SelfElements(items); }
      case Obj(fields) => SelfKeys(fields, fields);
      case _ =>
    }
  }

  lemma {:induction false} SelfElements(items: seq<Val>)
    requires forall x :: x in items ==> DistinctKeys(x)
    ensures JudgeElements(items, items) == Bad <==> exists x :: x in items && HasNaN(x)
    decreases items, 1
  {
    if items != [] {
      SelfJudged(items[0]);
      SelfElements(items[1..]);
      assert forall x :: x in items <==> x == items[0] || x in items[1..];
    }
  }

  lemma {:induction false} SelfKeys(part: seq<Property>, fields: seq<Property>)
    requires (forall f :: f in part ==> f in fields && DistinctKeys(f.value))
    requires forall i, j :: 0 <= i < j < |fields| ==> fields[i].key != fields[j].key
    ensures JudgeKeys(part, fields) == Bad <==> exists f :: f in part && HasNaN(f.value)
    decreases part, 1
  {
    if part != [] {
      assert part[0] in part;
      FindMember(fields, part[0]);
      SelfJudged(part[0].value);
      SelfKeys(part[1..], fields);
      assert forall f :: f in part <==> f == part[0] || f in part[1..];
    }
  }

  // Comparing a value with itself is a contradiction exactly when it contains NaN.
  lemma {:induction false} SelfComparison(v: Val)
    requires DistinctKeys(v)
    ensures Verdict(v, v) == CONTRADICTED <==> HasNaN(v)
  {
    VerdictIsJudgement(v, v);
    SelfJudged(v);
  }
}
