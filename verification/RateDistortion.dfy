// The rate-distortion sweep: skip-greedy selection at each budget, judged by the oracle. Token counts and
// rates are exact reals.
module RateDistortion {
  import opened Common
  import opened Ordering
  import opened GraphModel
  import opened SufficiencyOracle

  // A missing tokens or priority field is None.
  datatype Item = Item(id: Id, tokens: Option<real>, priority: Option<real>)

  datatype Point = Point(
    budget: real, rate: real, distortion: real, sufficient: bool, selected: seq<Id>, tokensUsed: real)

  datatype Report = Report(
    fullTokens: real, curve: seq<Point>, operatingPoint: Option<Point>, crr: real, maxRate: real)

  function Tokens(c: Item): real { Or(c.tokens, 0.0) }

  predicate ByPriority(a: Item, b: Item) {
    var pa, pb := Or(a.priority, 0.0), Or(b.priority, 0.0);
    pa > pb || (pa == pb && StringLe(a.id, b.id))
  }

  function Counted(cs: seq<Item>): (r: seq<Item>)
    ensures forall c :: c in r <==> c in cs && c.tokens.Some?
  {
    if cs == [] then [] else if cs[0].tokens.Some? then [cs[0]] + Counted(cs[1..]) else Counted(cs[1..])
  }

  function Ranked(cs: seq<Item>): seq<Item> { Sort(ByPriority, Counted(cs)) }

  function Sum(cs: seq<Item>): real {
    if cs == [] then 0.0 else Tokens(cs[0]) + Sum(cs[1..])
  }

  function ItemIds(cs: seq<Item>): (r: seq<Id>)
    ensures |r| == |cs| && forall i :: 0 <= i < |cs| ==> r[i] == cs[i].id
    ensures forall x :: x in r <==> exists c :: c in cs && c.id == x
  {
    seq(|cs|, i requires 0 <= i < |cs| => cs[i].id)
  }

  // Keep each item that still fits; skip the others and go on.
  function Greedy(s: seq<Item>, used: real, budget: real): seq<Item> {
    if s == [] then []
    else if used + Tokens(s[0]) <= budget then [s[0]] + Greedy(s[1..], used + Tokens(s[0]), budget)
    else Greedy(s[1..], used, budget)
  }

  function Chosen(cs: seq<Item>, budget: real): seq<Item> {
    if budget <= 0.0 then [] else Greedy(Ranked(cs), 0.0, budget)
  }

  // What has been picked so far, and what the items from i on will add.
  ghost predicate Selecting(s: seq<Item>, i: nat, out: seq<Id>, used: real, budget: real)
    requires i <= |s|
  {
    out + ItemIds(Greedy(s[i..], used, budget)) == ItemIds(Greedy(s, 0.0, budget))
  }

  lemma SelectingStart(s: seq<Item>, budget: real)
    ensures Selecting(s, 0, [], 0.0, budget)
  {
    assert s[0..] == s;
  }

  lemma {:induction false} SelectingStep(s: seq<Item>, i: nat, out: seq<Id>, used: real, budget: real)
    requires i < |s| && Selecting(s, i, out, used, budget)
    ensures used + Tokens(s[i]) <= budget ==> Selecting(s, i + 1, out + [s[i].id], used + Tokens(s[i]), budget)
    ensures used + Tokens(s[i]) > budget ==> Selecting(s, i + 1, out, used, budget)
  {
    var c, rest := s[i], s[i + 1..];
    assert s[i..][0] == c && s[i..][1..] == rest;
    if used + Tokens(c) <= budget {
      var later := Greedy(rest, used + Tokens(c), budget);
      assert ItemIds([c] + later) == [c.id] + ItemIds(later);
      assert out + ([c.id] + ItemIds(later)) == (out + [c.id]) + ItemIds(later);
    }
  }

  lemma SelectingEnd(s: seq<Item>, out: seq<Id>, used: real, budget: real)
    requires Selecting(s, |s|, out, used, budget)
    ensures out == ItemIds(Greedy(s, 0.0, budget))
  {
    assert s[|s|..] == [];
  }

  method SelectFrom(sorted: seq<Item>, budget: real) returns (out: seq<Id>)
    ensures out == ItemIds(Greedy(sorted, 0.0, budget))
  {
    out := [];
    var used := 0.0;
    SelectingStart(sorted, budget);
    for i := 0 to |sorted|
      invariant Selecting(sorted, i, out, used, budget)
    {
      SelectingStep(sorted, i, out, used, budget);
      var c := sorted[i];
      if used + Tokens(c) <= budget {
        out := out + [c.id];
        used := used + Tokens(c);
      }
    }
    SelectingEnd(sorted, out, used, budget);
  }

  method SelectByBudget(cs: seq<Item>, budget: real) returns (out: seq<Id>)
    ensures out == ItemIds(Chosen(cs, budget))
  {
    if budget <= 0.0 {
      return [];
    }
    out := SelectFrom(Ranked(cs), budget);
  }

  // The tokens of the first candidate with the given id.
  function TokensOf(cs: seq<Item>, id: Id): real {
    if cs == [] then 0.0 else if cs[0].id == id then Tokens(cs[0]) else TokensOf(cs[1..], id)
  }

  function TokensUsed(cs: seq<Item>, ids: seq<Id>): real {
    if ids == [] then 0.0 else TokensUsed(cs, ids[..|ids| - 1]) + TokensOf(cs, ids[|ids| - 1])
  }

  function Clamp01(n: real): real {
    if n < 0.0 then 0.0 else if n > 1.0 then 1.0 else n
  }

  function RateOf(used: real, full: real): real {
    Clamp01(if full == 0.0 then 1.0 else 1.0 - used / full)
  }

  // ---- the sweep ----

  predicate RealLe(a: real, b: real) { a <= b }

  function Running(s: seq<Item>, acc: real, derived: seq<real>): seq<real>
    requires derived != []
  {
    if s == [] then derived
    else
      var acc' := acc + Tokens(s[0]);
      Running(s[1..], acc', if acc' != derived[|derived| - 1] then derived + [acc'] else derived)
  }

  // 0, the cumulative sums in priority order, and the full total.
  function DerivedBudgets(cs: seq<Item>): seq<real> {
    var derived := Running(Ranked(cs), 0.0, [0.0]);
    if derived == [] || derived[|derived| - 1] != Sum(cs) then derived + [Sum(cs)] else derived
  }

  function NonNegative(bs: seq<real>): (r: seq<real>)
    ensures forall b :: b in r <==> b in bs && b >= 0.0
  {
    if bs == [] then [] else if bs[0] >= 0.0 then [bs[0]] + NonNegative(bs[1..]) else NonNegative(bs[1..])
  }

  function Distinct(bs: seq<real>): (r: seq<real>)
    ensures NoDup(r) && forall b :: b in r <==> b in bs
  {
    if bs == [] then []
    else
      var r := Distinct(bs[..|bs| - 1]);
      assert bs == bs[..|bs| - 1] + [bs[|bs| - 1]];
      if bs[|bs| - 1] in r then r else r + [bs[|bs| - 1]]
  }

  function Normalized(bs: seq<real>): seq<real> {
    Sort(RealLe, Distinct(NonNegative(bs)))
  }

  function Budgets(cs: seq<Item>, given: seq<real>): seq<real> {
    Normalized(if given == [] then DerivedBudgets(cs) else given)
  }

  ghost function PointAt(g: Graph, task: Id, cs: seq<Item>, budget: real): Point {
    var selected := ItemIds(Chosen(cs, budget));
    var sufficient := RequiredClosure(g, task) <= Elems(selected);
    var tokensUsed := TokensUsed(cs, selected);
    Point(budget, RateOf(tokensUsed, Sum(cs)), if sufficient then 0.0 else 1.0, sufficient, selected, tokensUsed)
  }

  ghost predicate FirstAt(ps: seq<Point>, i: nat) {
    i < |ps| && ps[i].sufficient && forall j :: 0 <= j < i ==> !ps[j].sufficient
  }

  function FirstSufficient(ps: seq<Point>): (r: Option<Point>)
    ensures r.Some? ==> exists i: nat :: FirstAt(ps, i) && ps[i] == r.value
    ensures r.None? ==> forall p :: p in ps ==> !p.sufficient
  {
    if ps == [] then None
    else
      var before := ps[..|ps| - 1];
      var last := ps[|ps| - 1];
      assert ps == before + [last];
      assert forall j: nat :: FirstAt(before, j) ==> FirstAt(ps, j);
      if FirstSufficient(before).Some? then FirstSufficient(before)
      else
        assert forall j :: 0 <= j < |ps| - 1 ==> ps[j] in before;
        assert last.sufficient ==> FirstAt(ps, |ps| - 1);
        if last.sufficient then Some(last) else None
  }

  // r is the largest rate among sufficient points, or 0.
  ghost predicate IsMaxRate(ps: seq<Point>, r: real) {
    && r >= 0.0
    && (forall p :: p in ps && p.sufficient ==> p.rate <= r)
    && (r == 0.0 || exists p :: p in ps && p.sufficient && p.rate == r)
  }

  ghost predicate IsCurve(g: Graph, task: Id, cs: seq<Item>, budgets: seq<real>, curve: seq<Point>) {
    |curve| == |budgets| && forall i :: 0 <= i < |budgets| ==> curve[i] == PointAt(g, task, cs, budgets[i])
  }

  ghost predicate IsReport(g: Graph, task: Id, cs: seq<Item>, given: seq<real>, r: Report) {
    && r.fullTokens == Sum(cs)
    && IsCurve(g, task, cs, Budgets(cs, given), r.curve)
    && r.operatingPoint == FirstSufficient(r.curve)
    && IsMaxRate(r.curve, r.maxRate)
    && r.crr == (if r.operatingPoint.Some? then r.operatingPoint.value.rate
                 else if r.curve != [] then r.curve[|r.curve| - 1].rate else 0.0)
  }

  method Spend(cs: seq<Item>, selected: seq<Id>) returns (tokensUsed: real)
    ensures tokensUsed == TokensUsed(cs, selected)
  {
    tokensUsed := 0.0;
    for i := 0 to |selected|
      invariant tokensUsed == TokensUsed(cs, selected[..i])
    {
      assert selected[..i + 1][..i] == selected[..i];
      tokensUsed := tokensUsed + TokensOf(cs, selected[i]);
    }
    assert selected[..|selected|] == selected;
  }

  method MeasureAt(taskId: Id, cs: seq<Item>, g: Graph, fullTokens: real, budget: real) returns (p: Point)
    requires taskId != "" && taskId in g.nodes && fullTokens == Sum(cs)
    ensures p == PointAt(g, taskId, cs, budget)
  {
    var selected := SelectByBudget(cs, budget);
    var verdict := VerifySufficiency(taskId, g, selected);
    var tokensUsed := Spend(cs, selected);
    var rate := if fullTokens == 0.0 then 1.0 else 1.0 - tokensUsed / fullTokens;
    var distortion := if verdict.value.sufficient then 0.0 else 1.0;
    p := Point(budget, Clamp01(rate), Clamp01(distortion), verdict.value.sufficient, selected, tokensUsed);
  }

  method ComputeRateDistortion(taskId: Id, cs: seq<Item>, g: Graph, given: seq<real>)
    returns (r: Result<Report, OracleError>)
    ensures r.Err? <==> taskId == "" || taskId !in g.nodes
    ensures r.Ok? ==> IsReport(g, taskId, cs, given, r.value)
  {
    var closure := ComputeRequiredClosure(taskId, g);
    if closure.Err? {
      return Err(closure.error);
    }
    var fullTokens := Sum(cs);
    var budgets := Budgets(cs, given);
    var curve: seq<Point> := [];
    var operatingPoint: Option<Point> := None;
    var maxRate := 0.0;
    for i := 0 to |budgets|
      invariant IsCurve(g, taskId, cs, budgets[..i], curve)
      invariant operatingPoint == FirstSufficient(curve)
      invariant IsMaxRate(curve, maxRate)
    {
      var point := MeasureAt(taskId, cs, g, fullTokens, budgets[i]);
      CurveGrows(g, taskId, cs, budgets, i, curve);
      curve, operatingPoint, maxRate := Extend(curve, operatingPoint, maxRate, point);
    }
    assert budgets[..|budgets|] == budgets;
    var crr := if operatingPoint.Some? then operatingPoint.value.rate
               else if curve != [] then curve[|curve| - 1].rate else 0.0;
    return Ok(Report(fullTokens, curve, operatingPoint, crr, maxRate));
  }

  method Extend(curve0: seq<Point>, first0: Option<Point>, maxRate0: real, point: Point)
    returns (curve: seq<Point>, first: Option<Point>, maxRate: real)
    requires first0 == FirstSufficient(curve0) && IsMaxRate(curve0, maxRate0)
    ensures curve == curve0 + [point] && first == FirstSufficient(curve) && IsMaxRate(curve, maxRate)
  {
    curve, first, maxRate := curve0 + [point], first0, maxRate0;
    assert curve[..|curve0|] == curve0;
    MaxRateGrows(curve0, point, maxRate0);
    if first == None && point.sufficient {
      first := Some(point);
    }
    if point.sufficient && point.rate > maxRate {
      maxRate := point.rate;
    }
  }

  lemma CurveGrows(g: Graph, task: Id, cs: seq<Item>, budgets: seq<real>, i: nat, curve: seq<Point>)
    requires i < |budgets| && IsCurve(g, task, cs, budgets[..i], curve)
    ensures IsCurve(g, task, cs, budgets[..i + 1], curve + [PointAt(g, task, cs, budgets[i])])
  {
  }

  lemma MaxRateGrows(ps: seq<Point>, p: Point, r: real)
    requires IsMaxRate(ps, r)
    ensures IsMaxRate(ps + [p], if p.sufficient && p.rate > r then p.rate else r)
  {
  }

  // ---- what the derived sweep guarantees ----

  ghost predicate WellCounted(cs: seq<Item>) {
    && (forall c :: c in cs ==> Tokens(c) >= 0.0)
    && NoDup(ItemIds(cs))
  }

  function Free(s: seq<Item>): (r: seq<Item>)
    ensures forall c :: c in r <==> c in s && Tokens(c) == 0.0
  {
    if s == [] then [] else if Tokens(s[0]) == 0.0 then [s[0]] + Free(s[1..]) else Free(s[1..])
  }

  lemma {:induction false} SumAppend(a: seq<Item>, b: seq<Item>)
    ensures Sum(a + b) == Sum(a) + Sum(b)
  {
    if a == [] {
      assert a + b == b;
    } else {
      assert (a + b)[1..] == a[1..] + b;
      SumAppend(a[1..], b);
    }
  }

  lemma {:induction false} SumInsert(c: Item, s: seq<Item>)
    ensures Sum(Insert(ByPriority, c, s)) == Tokens(c) + Sum(s)
  {
    if s == [] || ByPriority(c, s[0]) {
      SumAppend([c], s);
    } else {
      SumInsert(c, s[1..]);
      SumAppend([s[0]], Insert(ByPriority, c, s[1..]));
    }
  }

  lemma {:induction false} SumSort(s: seq<Item>)
    ensures Sum(Sort(ByPriority, s)) == Sum(s)
  {
    if s != [] {
      SumSort(s[1..]);
      SumInsert(s[0], Sort(ByPriority, s[1..]));
    }
  }

  lemma {:induction false} SumCounted(cs: seq<Item>)
    ensures Sum(Counted(cs)) == Sum(cs)
  {
    if cs != [] {
      SumCounted(cs[1..]);
      SumAppend([cs[0]], Counted(cs[1..]));
    }
  }

  lemma RankedFacts(cs: seq<Item>)
    ensures Sum(Ranked(cs)) == Sum(cs)
    ensures forall c :: c in Ranked(cs) <==> c in cs && c.tokens.Some?
  {
    SumSort(Counted(cs));
    SumCounted(cs);
    SortElems(ByPriority, Counted(cs));
  }

  lemma PriorityOrder()
    ensures TotalPreorder(ByPriority)
  {
    forall a, b ensures ByPriority(a, b) || ByPriority(b, a) { StringLeTotal(a.id, b.id); }
    forall a, b, c | ByPriority(a, b) && ByPriority(b, c) ensures ByPriority(a, c) {
      if Or(a.priority, 0.0) == Or(c.priority, 0.0) { StringLeTransitive(a.id, b.id, c.id); }
    }
  }

  function PriorityOf(c: Item): real {
    match c.priority case Some(p) => p case None => 0.0
  }

  // Candidates without a token count are dropped; the others come with the highest priority first and then by id.
  lemma {:induction false} RankedOrder(cs: seq<Item>)
    ensures var s := Ranked(cs);
      && (forall c :: c in s <==> c in cs && c.tokens.Some?)
      && forall i, j :: 0 <= i < j < |s| ==>
           || PriorityOf(s[i]) > PriorityOf(s[j])
           || (PriorityOf(s[i]) == PriorityOf(s[j]) && StringLe(s[i].id, s[j].id))
  {
    var s := Ranked(cs);
    RankedFacts(cs);
    PriorityOrder();
    SortSorted(ByPriority, Counted(cs));
    forall i, j | 0 <= i < j < |s| ensures ByPriority(s[i], s[j]) { }
  }

  // The rate is the share of the tokens saved.
  lemma RateIsSaving(used: real, full: real)
    requires 0.0 <= used <= full
    ensures full > 0.0 ==> RateOf(used, full) * full == full - used
    ensures full == 0.0 ==> RateOf(used, full) == 1.0
    ensures 0.0 <= RateOf(used, full) <= 1.0
  {
    if full > 0.0 {
      assert used / full * full == used;
      assert 0.0 <= used / full <= 1.0 by { Quotient(used, full); }
    }
  }

  lemma ProductSign(p: real, x: real)
    requires x > 0.0
    ensures p * x >= 0.0 ==> p >= 0.0
  {
  }

  lemma Quotient(used: real, full: real)
    requires 0.0 <= used <= full && full > 0.0
    ensures 0.0 <= used / full <= 1.0
  {
    var q := used / full;
    assert q * full == used;
    ProductSign(q, full);
    ProductSign(1.0 - q, full);
    assert (1.0 - q) * full == full - used;
  }

  lemma {:induction false} SumPrefixMonotone(s: seq<Item>, i: nat, j: nat)
    requires i <= j <= |s| && forall c :: c in s ==> Tokens(c) >= 0.0
    ensures 0.0 <= Sum(s[..i]) <= Sum(s[..j])
    decreases j
  {
    if j > 0 {
      assert s[..j] == s[..j - 1] + [s[j - 1]];
      SumAppend(s[..j - 1], [s[j - 1]]);
      assert s[j - 1] in s;
      if i < j {
        SumPrefixMonotone(s, i, j - 1);
      } else {
        SumPrefixMonotone(s, i - 1, j - 1);
      }
    }
  }

  lemma {:induction false} GreedyAtNothing(s: seq<Item>, used: real)
    requires forall c :: c in s ==> Tokens(c) >= 0.0
    ensures Greedy(s, used, used) == Free(s)
  {
    if s != [] {
      assert s[0] in s;
      assert forall c :: c in s[1..] ==> c in s;
      GreedyAtNothing(s[1..], used);
    }
  }

  lemma {:induction false} TakeSplits(s: seq<Item>, k: nat)
    requires 0 < k <= |s|
    ensures s[..k] == [s[0]] + s[1..][..k - 1] && s[1..][k - 1..] == s[k..]
    ensures Sum(s[..k]) == Tokens(s[0]) + Sum(s[1..][..k - 1])
  {
    assert s[..k][1..] == s[1..][..k - 1];
  }

  lemma Regroup(a: seq<Item>, b: seq<Item>, c: seq<Item>)
    ensures a + (b + c) == (a + b) + c
  {
  }

  // A prefix that fits is taken whole.
  lemma {:induction false} GreedyTakes(s: seq<Item>, k: nat, used: real, budget: real)
    requires k <= |s| && used + Sum(s[..k]) <= budget && forall c :: c in s ==> Tokens(c) >= 0.0
    ensures Greedy(s, used, budget) == s[..k] + Greedy(s[k..], used + Sum(s[..k]), budget)
    decreases k
  {
    if k == 0 {
      assert s[..0] == [] && s[0..] == s;
    } else {
      var t, rest := Tokens(s[0]), s[1..];
      assert forall c :: c in rest ==> c in s;
      TakeSplits(s, k);
      SumPrefixMonotone(rest, 0, k - 1);
      assert used + t <= budget && used + t + Sum(rest[..k - 1]) == used + Sum(s[..k]);
      GreedyTakes(rest, k - 1, used + t, budget);
      Regroup([s[0]], rest[..k - 1], Greedy(s[k..], used + Sum(s[..k]), budget));
    }
  }

  // At a budget equal to a prefix sum, exactly that prefix is taken, and then whatever is free.
  lemma {:induction false} GreedyAtPrefix(s: seq<Item>, k: nat, used: real)
    requires k <= |s| && forall c :: c in s ==> Tokens(c) >= 0.0
    ensures Greedy(s, used, used + Sum(s[..k])) == s[..k] + Free(s[k..])
  {
    GreedyTakes(s, k, used, used + Sum(s[..k]));
    GreedyAtNothing(s[k..], used + Sum(s[..k]));
  }

  // b is the sum of the first k ranked items.
  ghost predicate IsPrefixSum(cs: seq<Item>, b: real, k: nat) {
    k <= |Ranked(cs)| && b == Sum(Ranked(cs)[..k])
  }

  lemma {:induction false} RunningPrefixes(s: seq<Item>, k: nat, acc: real, derived: seq<real>)
    requires k <= |s| && derived != [] && acc == Sum(s[..k]) && acc == derived[|derived| - 1]
    requires forall b :: b in derived ==> exists i :: 0 <= i <= k && b == Sum(s[..i])
    ensures var r := Running(s[k..], acc, derived);
      && r != [] && r[|r| - 1] == Sum(s)
      && forall b :: b in r ==> exists i :: 0 <= i <= |s| && b == Sum(s[..i])
    decreases |s| - k
  {
    if k == |s| {
      assert s[..k] == s;
    } else {
      assert s[k..][1..] == s[k + 1..];
      assert s[..k + 1] == s[..k] + [s[k]];
      SumAppend(s[..k], [s[k]]);
      var acc' := acc + Tokens(s[k]);
      var d := if acc' != acc then derived + [acc'] else derived;
      forall b | b in d ensures exists i :: 0 <= i <= k + 1 && b == Sum(s[..i]) {
        if b in derived {
          var i :| 0 <= i <= k && b == Sum(s[..i]);
        } else {
          assert b == Sum(s[..k + 1]);
        }
      }
      RunningPrefixes(s, k + 1, acc', d);
    }
  }

  lemma DerivedArePrefixes(cs: seq<Item>)
    requires WellCounted(cs)
    ensures forall b :: b in Budgets(cs, []) ==> exists k: nat :: IsPrefixSum(cs, b, k)
    ensures Sum(cs) in Budgets(cs, [])
    ensures SortedBy(RealLe, Budgets(cs, []))
  {
    var s := Ranked(cs);
    RankedFacts(cs);
    assert s[..0] == [] && s[0..] == s;
    RunningPrefixes(s, 0, 0.0, [0.0]);
    var d := DerivedBudgets(cs);
    assert d == Running(s, 0.0, [0.0]);
    assert d[|d| - 1] in d;
    SumPrefixMonotone(s, 0, |s|);
    assert s[..|s|] == s;
    SortElems(RealLe, Distinct(NonNegative(d)));
    SortSorted(RealLe, Distinct(NonNegative(d)));
    forall b | b in Budgets(cs, []) ensures exists k: nat :: IsPrefixSum(cs, b, k) {
      var i :| 0 <= i <= |s| && b == Sum(s[..i]);
      assert IsPrefixSum(cs, b, i);
    }
  }

  lemma {:induction false} RunningCovers(s: seq<Item>, k: nat, acc: real, derived: seq<real>, i: nat)
    requires k <= |s| && derived != [] && acc == Sum(s[..k]) && acc == derived[|derived| - 1]
    requires i <= |s| && (i <= k ==> Sum(s[..i]) in derived)
    ensures Sum(s[..i]) in Running(s[k..], acc, derived)
    decreases |s| - k
  {
    if k < |s| {
      assert s[k..][1..] == s[k + 1..];
      assert s[..k + 1] == s[..k] + [s[k]];
      SumAppend(s[..k], [s[k]]);
      var acc' := acc + Tokens(s[k]);
      var d := if acc' != acc then derived + [acc'] else derived;
      assert d[|d| - 1] in d;
      RunningCovers(s, k + 1, acc', d, i);
    }
  }

  // The budgets of the sweep: with none given, exactly the sums of the first k ranked items; otherwise exactly those
  // given that are not negative. Each once, in rising order.
  lemma {:induction false} BudgetsAre(cs: seq<Item>, given: seq<real>, b: real)
    ensures given != [] ==> (b in Budgets(cs, given) <==> b in given && b >= 0.0)
    ensures given == [] && WellCounted(cs) ==> (b in Budgets(cs, given) <==> exists k: nat :: IsPrefixSum(cs, b, k))
    ensures forall i, j :: 0 <= i < j < |Budgets(cs, given)| ==> Budgets(cs, given)[i] < Budgets(cs, given)[j]
  {
    var bs := if given == [] then DerivedBudgets(cs) else given;
    var d := Distinct(NonNegative(bs));
    SortElems(RealLe, d);
    SortMembers(RealLe, d);
    SortSorted(RealLe, d);
    PermutationNoDup(d, Sort(RealLe, d));
    var r := Budgets(cs, given);
    forall i, j | 0 <= i < j < |r| ensures r[i] < r[j] { assert RealLe(r[i], r[j]); }
    if given == [] && WellCounted(cs) {
      DerivedArePrefixes(cs);
      if k: nat :| IsPrefixSum(cs, b, k) { PrefixIsDerived(cs, k); }
    }
  }

  lemma {:induction false} PrefixIsDerived(cs: seq<Item>, k: nat)
    requires WellCounted(cs) && k <= |Ranked(cs)|
    ensures Sum(Ranked(cs)[..k]) in DerivedBudgets(cs) && Sum(Ranked(cs)[..k]) >= 0.0
  {
    var s := Ranked(cs);
    RankedFacts(cs);
    assert s[..0] == [] && s[0..] == s;
    RunningCovers(s, 0, 0.0, [0.0], k);
    SumPrefixMonotone(s, 0, k);
  }

  lemma ChosenAtPrefix(cs: seq<Item>, b: real, k: nat)
    requires WellCounted(cs) && IsPrefixSum(cs, b, k) && b > 0.0
    ensures Chosen(cs, b) == Ranked(cs)[..k] + Free(Ranked(cs)[k..])
  {
    var s := Ranked(cs);
    RankedFacts(cs);
    assert forall c :: c in s ==> Tokens(c) >= 0.0;
    GreedyAtPrefix(s, k, 0.0);
    assert b == 0.0 + Sum(s[..k]);
  }

  lemma PrefixAndFreeGrow(s: seq<Item>, k: nat, k': nat, c: Item)
    requires k <= k' <= |s| && c in s[..k] + Free(s[k..])
    ensures c in s[..k'] + Free(s[k'..])
  {
  }

  // A larger derived budget never drops an item.
  lemma ChosenChain(cs: seq<Item>, b: real, b': real, k: nat, k': nat)
    requires WellCounted(cs) && IsPrefixSum(cs, b, k) && IsPrefixSum(cs, b', k') && b <= b'
    ensures forall c :: c in Chosen(cs, b) ==> c in Chosen(cs, b')
  {
    if 0.0 < b < b' {
      if k' < k {
        RankedFacts(cs);
        SumPrefixMonotone(Ranked(cs), k', k);
      }
      ChosenAtPrefix(cs, b, k);
      ChosenAtPrefix(cs, b', k');
      forall c | c in Chosen(cs, b) ensures c in Chosen(cs, b') {
        PrefixAndFreeGrow(Ranked(cs), k, k', c);
      }
    }
  }

  lemma {:induction false} TokensOfMember(cs: seq<Item>, c: Item)
    requires NoDup(ItemIds(cs)) && c in cs
    ensures TokensOf(cs, c.id) == Tokens(c)
  {
    if cs[0] != c {
      var i :| 0 <= i < |cs| && cs[i] == c;
      assert ItemIds(cs)[0] != ItemIds(cs)[i];
      assert forall j :: 0 <= j < |cs| - 1 ==> ItemIds(cs[1..])[j] == ItemIds(cs)[j + 1];
      assert c in cs[1..];
      TokensOfMember(cs[1..], c);
    }
  }

  lemma {:induction false} TokensUsedIsSum(cs: seq<Item>, s: seq<Item>)
    requires NoDup(ItemIds(cs)) && forall c :: c in s ==> c in cs
    ensures TokensUsed(cs, ItemIds(s)) == Sum(s)
  {
    if s != [] {
      var n := |s| - 1;
      assert s == s[..n] + [s[n]];
      SumAppend(s[..n], [s[n]]);
      assert ItemIds(s)[..n] == ItemIds(s[..n]);
      TokensUsedIsSum(cs, s[..n]);
      assert s[n] in s;
      TokensOfMember(cs, s[n]);
    }
  }

  lemma {:induction false} SumFree(s: seq<Item>)
    ensures Sum(Free(s)) == 0.0
  {
    if s != [] {
      SumFree(s[1..]);
      SumAppend([s[0]], Free(s[1..]));
    }
  }

  // On the derived sweep the tokens used are the budget itself.
  lemma DerivedUsesBudget(cs: seq<Item>, b: real, k: nat)
    requires WellCounted(cs) && IsPrefixSum(cs, b, k)
    ensures TokensUsed(cs, ItemIds(Chosen(cs, b))) == b
  {
    var s := Ranked(cs);
    RankedFacts(cs);
    SumPrefixMonotone(s, 0, k);
    assert s[..0] == [];
    if b > 0.0 {
      ChosenAtPrefix(cs, b, k);
      SumAppend(s[..k], Free(s[k..]));
      SumFree(s[k..]);
      TokensUsedIsSum(cs, Chosen(cs, b));
    }
  }

  lemma IdsGrow(a: seq<Item>, b: seq<Item>)
    requires forall c :: c in a ==> c in b
    ensures Elems(ItemIds(a)) <= Elems(ItemIds(b))
  {
  }

  lemma RateFalls(used: real, used': real, full: real)
    requires used <= used' && full >= 0.0
    ensures RateOf(used', full) <= RateOf(used, full)
  {
  }

  lemma DerivedSelections(cs: seq<Item>, b: real, b': real)
    requires WellCounted(cs) && b in Budgets(cs, []) && b' in Budgets(cs, []) && b <= b'
    ensures Elems(ItemIds(Chosen(cs, b))) <= Elems(ItemIds(Chosen(cs, b')))
    ensures TokensUsed(cs, ItemIds(Chosen(cs, b))) == b && TokensUsed(cs, ItemIds(Chosen(cs, b'))) == b'
  {
    DerivedArePrefixes(cs);
    var k: nat :| IsPrefixSum(cs, b, k);
    var k': nat :| IsPrefixSum(cs, b', k');
    ChosenChain(cs, b, b', k, k');
    IdsGrow(Chosen(cs, b), Chosen(cs, b'));
    DerivedUsesBudget(cs, b, k);
    DerivedUsesBudget(cs, b', k');
  }

  lemma SumNonNegative(cs: seq<Item>)
    requires WellCounted(cs)
    ensures Sum(cs) >= 0.0
  {
  }

  // One step along the derived sweep: selections grow, rate and distortion never rise.
  lemma DerivedStep(g: Graph, task: Id, cs: seq<Item>, b: real, b': real)
    requires WellCounted(cs) && b in Budgets(cs, []) && b' in Budgets(cs, []) && b <= b'
    ensures var p, p' := PointAt(g, task, cs, b), PointAt(g, task, cs, b');
      && Elems(p.selected) <= Elems(p'.selected)
      && p.tokensUsed == b && p'.tokensUsed == b'
      && p'.rate <= p.rate && p'.distortion <= p.distortion
      && (p.sufficient ==> p'.sufficient)
  {
    DerivedSelections(cs, b, b');
    SumNonNegative(cs);
    RateFalls(b, b', Sum(cs));
  }

  ghost predicate Monotone(r: Report) {
    forall i, j :: 0 <= i < j < |r.curve| ==>
      && Elems(r.curve[i].selected) <= Elems(r.curve[j].selected)
      && r.curve[j].rate <= r.curve[i].rate
      && r.curve[j].distortion <= r.curve[i].distortion
  }

  // The ids the selection can draw from.
  ghost function CandidateIds(cs: seq<Item>): set<Id> {
    Elems(ItemIds(Counted(cs)))
  }

  lemma DerivedMonotone(g: Graph, task: Id, cs: seq<Item>, r: Report)
    requires WellCounted(cs) && IsReport(g, task, cs, [], r)
    ensures Monotone(r)
    ensures forall p :: p in r.curve ==> p.tokensUsed == p.budget
  {
    var budgets := Budgets(cs, []);
    DerivedArePrefixes(cs);
    forall i, j | 0 <= i < j < |r.curve|
      ensures Elems(r.curve[i].selected) <= Elems(r.curve[j].selected)
      ensures r.curve[j].rate <= r.curve[i].rate && r.curve[j].distortion <= r.curve[i].distortion
    {
      DerivedStep(g, task, cs, budgets[i], budgets[j]);
    }
    forall p | p in r.curve ensures p.tokensUsed == p.budget {
      var i :| 0 <= i < |r.curve| && r.curve[i] == p;
      DerivedStep(g, task, cs, budgets[i], budgets[i]);
    }
  }

  lemma FirstIsBest(r: Report)
    requires Monotone(r) && IsMaxRate(r.curve, r.maxRate) && r.operatingPoint == FirstSufficient(r.curve)
    requires forall p :: p in r.curve ==> p.rate >= 0.0
    requires r.operatingPoint.Some?
    ensures r.maxRate == r.operatingPoint.value.rate
  {
  }

  // The whole report on the derived sweep.
  lemma DerivedSweep(g: Graph, task: Id, cs: seq<Item>, r: Report)
    requires WellCounted(cs) && IsReport(g, task, cs, [], r)
    ensures Monotone(r)
    ensures forall p :: p in r.curve ==> p.tokensUsed == p.budget
    ensures r.operatingPoint.Some? ==> r.crr == r.maxRate == r.operatingPoint.value.rate
    ensures r.fullTokens > 0.0 ==> (r.operatingPoint.Some? <==> RequiredClosure(g, task) <= CandidateIds(cs))
  {
    DerivedMonotone(g, task, cs, r);
    if r.operatingPoint.Some? {
      FirstIsBest(r);
      SelectedAreCandidates(g, task, cs, r);
    } else if r.fullTokens > 0.0 {
      FullPoint(g, task, cs, r);
    }
  }

  // The last derived budget takes every candidate.
  lemma FullPoint(g: Graph, task: Id, cs: seq<Item>, r: Report)
    requires WellCounted(cs) && IsReport(g, task, cs, [], r) && Sum(cs) > 0.0 && r.operatingPoint.None?
    ensures !(RequiredClosure(g, task) <= CandidateIds(cs))
  {
    FullBudgetTakesAll(cs);
    DerivedArePrefixes(cs);
    var n :| 0 <= n < |Budgets(cs, [])| && Budgets(cs, [])[n] == Sum(cs);
    var full := r.curve[n];
    assert full in r.curve && full == PointAt(g, task, cs, Sum(cs));
    assert !full.sufficient;
  }

  lemma SelectedAreCandidates(g: Graph, task: Id, cs: seq<Item>, r: Report)
    requires WellCounted(cs) && IsReport(g, task, cs, [], r)
    ensures r.operatingPoint.Some? ==> RequiredClosure(g, task) <= CandidateIds(cs)
  {
    if r.operatingPoint.Some? {
      var i: nat :| FirstAt(r.curve, i) && r.curve[i] == r.operatingPoint.value;
      var b := Budgets(cs, [])[i];
      forall c | c in Chosen(cs, b) ensures c in Counted(cs) {
        if b > 0.0 {
          GreedyFrom(Ranked(cs), 0.0, b);
          RankedFacts(cs);
        }
      }
      IdsGrow(Chosen(cs, b), Counted(cs));
    }
  }

  lemma {:induction false} GreedyFrom(s: seq<Item>, used: real, budget: real)
    ensures forall c :: c in Greedy(s, used, budget) ==> c in s
  {
    if s != [] {
      GreedyFrom(s[1..], used + Tokens(s[0]), budget);
      GreedyFrom(s[1..], used, budget);
    }
  }

  lemma FullBudgetTakesAll(cs: seq<Item>)
    requires WellCounted(cs) && Sum(cs) > 0.0
    ensures Elems(ItemIds(Chosen(cs, Sum(cs)))) == CandidateIds(cs)
  {
    var s := Ranked(cs);
    RankedFacts(cs);
    assert s[..|s|] == s && s[|s|..] == [];
    ChosenAtPrefix(cs, Sum(cs), |s|);
    IdsGrow(s, Counted(cs));
    IdsGrow(Counted(cs), s);
  }

  // ---- budgets of the caller's own choosing ----

  // Among the items that cost something, none is cheaper than an earlier one.
  ghost predicate Rising(s: seq<Item>) {
    forall i, j :: 0 <= i < j < |s| && Tokens(s[i]) > 0.0 && Tokens(s[j]) > 0.0 ==> Tokens(s[i]) <= Tokens(s[j])
  }

  lemma {:induction false} FreeTaken(s: seq<Item>, used: real, budget: real, c: Item)
    requires used <= budget && c in s && Tokens(c) == 0.0
    ensures c in Greedy(s, used, budget)
  {
    if s[0] != c {
      if used + Tokens(s[0]) <= budget {
        FreeTaken(s[1..], used + Tokens(s[0]), budget, c);
      } else {
        FreeTaken(s[1..], used, budget, c);
      }
    }
  }

  lemma {:induction false} OnlyFreeFits(s: seq<Item>, used: real, budget: real)
    requires forall c :: c in s ==> Tokens(c) == 0.0 || used + Tokens(c) > budget
    ensures Sum(Greedy(s, used, budget)) == 0.0
    ensures forall c :: c in Greedy(s, used, budget) ==> c in s && Tokens(c) == 0.0
  {
    if s != [] {
      assert s[0] in s && forall c :: c in s[1..] ==> c in s;
      OnlyFreeFits(s[1..], used, budget);
    }
  }

  // Once an item of a rising list misses, only free items are left to take.
  lemma {:induction false} OnlyFreeLeft(s: seq<Item>, used: real, b: real)
    requires s != [] && used <= b && used + Tokens(s[0]) > b && Rising(s) && forall c :: c in s ==> Tokens(c) >= 0.0
    ensures Sum(Greedy(s, used, b)) == 0.0
    ensures forall c :: c in Greedy(s, used, b) ==> c in s && Tokens(c) == 0.0
  {
    forall c | c in s[1..] ensures Tokens(c) == 0.0 || used + Tokens(c) > b {
      var j :| 1 <= j < |s| && s[j] == c;
      assert c in s;
    }
    OnlyFreeFits(s[1..], used, b);
  }

  lemma {:induction false} RisingGrows(s: seq<Item>, used: real, b: real, b': real)
    requires used <= b <= b' && Rising(s) && forall c :: c in s ==> Tokens(c) >= 0.0
    ensures forall c :: c in Greedy(s, used, b) ==> c in Greedy(s, used, b')
  {
    if s != [] {
      assert s[0] in s && forall c :: c in s[1..] ==> c in s;
      if used + Tokens(s[0]) <= b {
        RisingGrows(s[1..], used + Tokens(s[0]), b, b');
      } else {
        OnlyFreeLeft(s, used, b);
        forall c | c in Greedy(s, used, b) ensures c in Greedy(s, used, b') {
          FreeTaken(s, used, b', c);
        }
      }
    }
  }

  lemma {:induction false} RisingSpends(s: seq<Item>, used: real, b: real, b': real)
    requires used <= b <= b' && Rising(s) && forall c :: c in s ==> Tokens(c) >= 0.0
    ensures Sum(Greedy(s, used, b)) <= Sum(Greedy(s, used, b'))
  {
    if s != [] {
      assert s[0] in s && forall c :: c in s[1..] ==> c in s;
      if used + Tokens(s[0]) <= b {
        RisingSpends(s[1..], used + Tokens(s[0]), b, b');
      } else {
        OnlyFreeLeft(s, used, b);
        GreedyFrom(s, used, b');
        SumAtLeastZero(Greedy(s, used, b'));
      }
    }
  }

  lemma {:induction false} SumAtLeastZero(s: seq<Item>)
    requires forall c :: c in s ==> Tokens(c) >= 0.0
    ensures Sum(s) >= 0.0
  {
    if s != [] {
      assert s[0] in s;
      SumAtLeastZero(s[1..]);
    }
  }

  // An item that fits is reached past items that are free or too large.
  lemma {:induction false} Reached(s: seq<Item>, q: nat, used: real, budget: real)
    requires q < |s| && used + Tokens(s[q]) <= budget
    requires forall i :: 0 <= i < q ==> Tokens(s[i]) == 0.0 || used + Tokens(s[i]) > budget
    ensures s[q] in Greedy(s, used, budget)
    decreases q
  {
    if q > 0 {
      assert s[1..][q - 1] == s[q];
      Reached(s[1..], q - 1, used, budget);
    }
  }

  // The first item after p that costs something but less than p.
  lemma {:induction false} ClosestInversion(s: seq<Item>, p: nat, j: nat) returns (q: nat)
    requires p < j < |s| && 0.0 < Tokens(s[j]) < Tokens(s[p]) && forall c :: c in s ==> Tokens(c) >= 0.0
    ensures p < q < |s| && 0.0 < Tokens(s[q]) < Tokens(s[p])
    ensures forall i :: p < i < q ==> Tokens(s[i]) == 0.0 || Tokens(s[i]) >= Tokens(s[p])
  {
    q := p + 1;
    while !(0.0 < Tokens(s[q]) < Tokens(s[p]))
      invariant p < q <= j
      decreases j - q
      invariant forall i :: p < i < q ==> Tokens(s[i]) == 0.0 || Tokens(s[i]) >= Tokens(s[p])
    {
      assert s[q] in s;
      q := q + 1;
    }
  }

  // Where a dearer item p comes before a cheaper one q, the budget that just reaches q past p drops q when it grows
  // enough to take p instead.
  lemma {:induction false} CheaperTaken(s: seq<Item>, p: nat, q: nat)
    requires p < q < |s| && Tokens(s[q]) < Tokens(s[p]) && forall c :: c in s ==> Tokens(c) >= 0.0
    requires forall i :: p < i < q ==> Tokens(s[i]) == 0.0 || Tokens(s[i]) >= Tokens(s[p])
    ensures s[q] in Greedy(s, 0.0, Sum(s[..p]) + Tokens(s[q]))
  {
    var used, cost, rest := Sum(s[..p]), Tokens(s[q]), s[p..];
    assert s[q] in s;
    GreedyTakes(s, p, 0.0, used + cost);
    forall i | 0 <= i < q - p ensures Tokens(rest[i]) == 0.0 || used + Tokens(rest[i]) > used + cost {
      assert rest[i] == s[p + i];
    }
    assert rest[q - p] == s[q];
    Reached(rest, q - p, used, used + cost);
  }

  lemma {:induction false} CheaperDropped(s: seq<Item>, p: nat, q: nat)
    requires p < q < |s| && 0.0 < Tokens(s[q]) && NoDup(s) && forall c :: c in s ==> Tokens(c) >= 0.0
    ensures s[q] !in Greedy(s, 0.0, Sum(s[..p]) + Tokens(s[p]))
  {
    assert s[..p + 1] == s[..p] + [s[p]];
    SumAppend(s[..p], [s[p]]);
    assert Sum([s[p]]) == Tokens(s[p]);
    GreedyAtPrefix(s, p + 1, 0.0);
    assert s[q] !in Free(s[p + 1..]);
    assert s[q] !in s[..p + 1];
  }

  lemma {:induction false} CountedNoDup(cs: seq<Item>)
    requires NoDup(ItemIds(cs))
    ensures NoDup(Counted(cs))
  {
    if cs != [] {
      assert ItemIds(cs) == [cs[0].id] + ItemIds(cs[1..]);
      assert cs[0].id !in ItemIds(cs[1..]);
      CountedNoDup(cs[1..]);
    }
  }

  lemma RankedNoDup(cs: seq<Item>)
    requires WellCounted(cs)
    ensures NoDup(Ranked(cs)) && forall c :: c in Ranked(cs) ==> Tokens(c) >= 0.0
  {
    CountedNoDup(cs);
    SortMembers(ByPriority, Counted(cs));
    PermutationNoDup(Counted(cs), Ranked(cs));
    RankedFacts(cs);
  }

  ghost predicate GrowsWithBudget(cs: seq<Item>) {
    forall b, b', c :: b <= b' && c in Chosen(cs, b) ==> c in Chosen(cs, b')
  }

  lemma {:induction false} InversionDrops(cs: seq<Item>, p: nat, j: nat)
    requires WellCounted(cs) && p < j < |Ranked(cs)| && 0.0 < Tokens(Ranked(cs)[j]) < Tokens(Ranked(cs)[p])
    ensures !GrowsWithBudget(cs)
  {
    var s := Ranked(cs);
    RankedNoDup(cs);
    var q := ClosestInversion(s, p, j);
    CheaperTaken(s, p, q);
    CheaperDropped(s, p, q);
    SumPrefixMonotone(s, 0, p);
    Dropped(cs, Sum(s[..p]) + Tokens(s[q]), Sum(s[..p]) + Tokens(s[p]), s[q]);
  }

  lemma Dropped(cs: seq<Item>, b: real, b': real, c: Item)
    requires 0.0 < b <= b' && c in Greedy(Ranked(cs), 0.0, b) && c !in Greedy(Ranked(cs), 0.0, b')
    ensures !GrowsWithBudget(cs)
  {
    assert c in Chosen(cs, b) && c !in Chosen(cs, b');
  }

  // For budgets of any kind, no larger budget ever drops an item exactly when the items that cost something come in
  // rising cost.
  lemma {:induction false} GrowsExactly(cs: seq<Item>)
    requires WellCounted(cs)
    ensures GrowsWithBudget(cs) <==> Rising(Ranked(cs))
  {
    var s := Ranked(cs);
    RankedNoDup(cs);
    if Rising(s) {
      forall b, b', c | b <= b' && c in Chosen(cs, b) ensures c in Chosen(cs, b') {
        RisingGrows(s, 0.0, b, b');
      }
    } else {
      var i, j :| 0 <= i < j < |s| && Tokens(s[i]) > 0.0 && Tokens(s[j]) > 0.0 && Tokens(s[i]) > Tokens(s[j]);
      InversionDrops(cs, i, j);
    }
  }

  // And then the whole curve is monotone, whatever budgets it is drawn for.
  lemma {:induction false} RisingSweep(g: Graph, task: Id, cs: seq<Item>, given: seq<real>, r: Report)
    requires WellCounted(cs) && Rising(Ranked(cs)) && IsReport(g, task, cs, given, r)
    ensures Monotone(r)
  {
    var budgets := Budgets(cs, given);
    SortSorted(RealLe, Distinct(NonNegative(if given == [] then DerivedBudgets(cs) else given)));
    forall i, j | 0 <= i < j < |r.curve|
      ensures Elems(r.curve[i].selected) <= Elems(r.curve[j].selected)
      ensures r.curve[j].rate <= r.curve[i].rate && r.curve[j].distortion <= r.curve[i].distortion
    {
      assert RealLe(budgets[i], budgets[j]);
      RisingStep(g, task, cs, budgets[i], budgets[j]);
    }
  }

  lemma {:induction false} ChosenAreCandidates(cs: seq<Item>, b: real)
    ensures forall c :: c in Chosen(cs, b) ==> c in cs
  {
    RankedFacts(cs);
    if b > 0.0 {
      GreedyFrom(Ranked(cs), 0.0, b);
    }
  }

  lemma {:induction false} RisingStep(g: Graph, task: Id, cs: seq<Item>, b: real, b': real)
    requires WellCounted(cs) && Rising(Ranked(cs)) && b <= b'
    ensures var p, p' := PointAt(g, task, cs, b), PointAt(g, task, cs, b');
      Elems(p.selected) <= Elems(p'.selected) && p'.rate <= p.rate && p'.distortion <= p.distortion
  {
    GrowsExactly(cs);
    IdsGrow(Chosen(cs, b), Chosen(cs, b'));
    ChosenAreCandidates(cs, b);
    ChosenAreCandidates(cs, b');
    TokensUsedIsSum(cs, Chosen(cs, b));
    TokensUsedIsSum(cs, Chosen(cs, b'));
    RankedNoDup(cs);
    if b > 0.0 {
      RisingSpends(Ranked(cs), 0.0, b, b');
    } else {
      SumAtLeastZero(Chosen(cs, b'));
    }
    SumNonNegative(cs);
    RateFalls(Sum(Chosen(cs, b)), Sum(Chosen(cs, b')), Sum(cs));
  }

  // The smallest case in which a larger budget trades one item for another.
  lemma ArbitraryBudgetsNotMonotone()
    ensures var cs := [Item("a", Some(5.0), Some(2.0)), Item("b", Some(3.0), Some(1.0))];
      ItemIds(Chosen(cs, 3.0)) == ["b"] && ItemIds(Chosen(cs, 5.0)) == ["a"]
  {
  }
}
