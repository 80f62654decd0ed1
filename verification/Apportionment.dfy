// Scaling criterion weights to whole ten-thousandths by largest remainder, and judging completion by weight.
// Floating-point numbers are reals.
module Apportionment {
  import opened Common
  import opened Ordering

  const SCALE := 10000

  datatype Criterion = Criterion(kind: string, weight: real, passed: bool)

  datatype Remainder = Remainder(i: nat, frac: real)

  // ---- sums ----

  function Total(criteria: seq<Criterion>): real {
    if criteria == [] then 0.0 else criteria[0].weight + Total(criteria[1..])
  }

  function Sum(units: seq<int>): int {
    if units == [] then 0 else units[0] + Sum(units[1..])
  }

  function FracSum(rs: seq<Remainder>): real {
    if rs == [] then 0.0 else rs[0].frac + FracSum(rs[1..])
  }

  // ---- one share ----

  function Share(weight: real, total: real): real
    requires total > 0.0
  {
    weight / total * SCALE as real
  }

  function Floors(criteria: seq<Criterion>, total: real): (r: seq<int>)
    requires total > 0.0
    ensures |r| == |criteria| && forall i :: 0 <= i < |r| ==> r[i] == Share(criteria[i].weight, total).Floor
  {
    seq(|criteria|, i requires 0 <= i < |criteria| => Share(criteria[i].weight, total).Floor)
  }

  function Frac(x: real): (r: real)
    ensures 0.0 <= r < 1.0
  {
    x - x.Floor as real
  }

  // What the floors leave of each share, from position `from` on.
  function Remainders(criteria: seq<Criterion>, total: real, from: nat): (r: seq<Remainder>)
    requires total > 0.0 && from <= |criteria|
    ensures |r| == |criteria| - from
    ensures forall k :: 0 <= k < |r| ==> r[k] == Remainder(from + k, Frac(Share(criteria[from + k].weight, total)))
    decreases |criteria| - from
  {
    if from == |criteria| then []
    else [Remainder(from, Frac(Share(criteria[from].weight, total)))] + Remainders(criteria, total, from + 1)
  }

  predicate LargerFirst(a: Remainder, b: Remainder) {
    a.frac >= b.frac
  }

  function Ranked(criteria: seq<Criterion>, total: real): seq<Remainder>
    requires total > 0.0
  {
    Sort(LargerFirst, Remainders(criteria, total, 0))
  }

  function Deficit(criteria: seq<Criterion>, total: real): int
    requires total > 0.0
  {
    SCALE - Sum(Floors(criteria, total))
  }

  predicate Indices(rs: seq<Remainder>, n: nat) {
    forall k :: 0 <= k < |rs| ==> rs[k].i < n
  }

  // One more unit at each listed position, in order.
  function Bump(units: seq<int>, rs: seq<Remainder>): (r: seq<int>)
    requires Indices(rs, |units|)
    ensures |r| == |units|
    decreases |rs|
  {
    if rs == [] then units
    else
      var last := rs[|rs| - 1];
      var before := Bump(units, rs[..|rs| - 1]);
      before[last.i := before[last.i] + 1]
  }

  // ---- facts about the deficit ----

  lemma {:induction false} SharesOfTotal(criteria: seq<Criterion>, total: real, from: nat)
    requires total > 0.0 && from <= |criteria|
    ensures Sum(Floors(criteria[from..], total)) as real + FracSum(Remainders(criteria, total, from)) ==
      Share(Total(criteria[from..]), total)
    decreases |criteria| - from
  {
    if from < |criteria| {
      SharesOfTotal(criteria, total, from + 1);
      var rest := criteria[from + 1..];
      assert criteria[from..][1..] == rest;
      assert Floors(criteria[from..], total)[1..] == Floors(rest, total);
      assert Remainders(criteria, total, from)[1..] == Remainders(criteria, total, from + 1);
    } else {
      assert Floors(criteria[from..], total) == [];
    }
  }

  lemma {:induction false} FracSumBounds(rs: seq<Remainder>)
    requires forall k :: 0 <= k < |rs| ==> 0.0 <= rs[k].frac < 1.0
    ensures 0.0 <= FracSum(rs) <= |rs| as real
    ensures rs != [] ==> FracSum(rs) < |rs| as real
  {
    if rs != [] { FracSumBounds(rs[1..]); }
  }

  // The deficit is the sum of the remainders, so it is at least zero and less than the number of criteria.
  lemma {:induction false} DeficitBounds(criteria: seq<Criterion>)
    requires Total(criteria) > 0.0
    ensures Deficit(criteria, Total(criteria)) as real == FracSum(Remainders(criteria, Total(criteria), 0))
    ensures 0 <= Deficit(criteria, Total(criteria)) < |criteria|
  {
    var total := Total(criteria);
    assert criteria[0..] == criteria;
    SharesOfTotal(criteria, total, 0);
    FracSumBounds(Remainders(criteria, total, 0));
  }

  // ---- facts about the ranking ----

  lemma {:induction false} InsertFracSum(r: Remainder, rs: seq<Remainder>)
    ensures FracSum(Insert(LargerFirst, r, rs)) == r.frac + FracSum(rs)
  {
    if rs != [] && !LargerFirst(r, rs[0]) { InsertFracSum(r, rs[1..]); }
  }

  lemma {:induction false} SortFracSum(rs: seq<Remainder>)
    ensures FracSum(Sort(LargerFirst, rs)) == FracSum(rs)
  {
    if rs != [] {
      SortFracSum(rs[1..]);
      InsertFracSum(rs[0], Sort(LargerFirst, rs[1..]));
    }
  }

  // The ranking lists every position once, with its remainder, larger remainders first.
  ghost predicate IsRanking(rs: seq<Remainder>, criteria: seq<Criterion>, total: real)
    requires total > 0.0
  {
    && |rs| == |criteria|
    && SortedBy(LargerFirst, rs)
    && (forall k :: 0 <= k < |rs| ==> RankedRight(rs[k], criteria, total))
    && (forall j, k :: 0 <= j < k < |rs| ==> rs[j].i != rs[k].i)
    && (forall i :: 0 <= i < |criteria| ==> Placed(rs, i))
  }

  predicate RankedRight(r: Remainder, criteria: seq<Criterion>, total: real)
    requires total > 0.0
  {
    r.i < |criteria| && r.frac == Frac(Share(criteria[r.i].weight, total))
  }

  ghost predicate Placed(rs: seq<Remainder>, i: nat) {
    exists k :: 0 <= k < |rs| && rs[k].i == i
  }

  lemma {:induction false} RankedIsRanking(criteria: seq<Criterion>, total: real)
    requires total > 0.0
    ensures IsRanking(Ranked(criteria, total), criteria, total)
  {
    var raw := Remainders(criteria, total, 0);
    var rs := Ranked(criteria, total);
    SortMembers(LargerFirst, raw);
    SortElems(LargerFirst, raw);
    SortSorted(LargerFirst, raw);
    PermutationNoDup(raw, rs);
    forall k | 0 <= k < |rs| ensures RankedRight(rs[k], criteria, total) {
      assert rs[k] in raw;
    }
    forall j, k | 0 <= j < k < |rs| ensures rs[j].i != rs[k].i {
      assert RankedRight(rs[j], criteria, total) && RankedRight(rs[k], criteria, total);
    }
    forall i | 0 <= i < |criteria| ensures Placed(rs, i) {
      assert raw[i] in rs;
      var k :| 0 <= k < |rs| && rs[k] == raw[i];
    }
  }

  // ---- the result ----

  function Units(criteria: seq<Criterion>): (r: seq<int>)
    requires Total(criteria) > 0.0
    ensures |r| == |criteria|
  {
    var total := Total(criteria);
    DeficitBounds(criteria);
    RankedIsRanking(criteria, total);
    Bump(Floors(criteria, total), Ranked(criteria, total)[..Deficit(criteria, total)])
  }

  function Reweighted(criteria: seq<Criterion>, units: seq<int>): (r: seq<Criterion>)
    requires |units| == |criteria|
    ensures |r| == |criteria|
    ensures forall i :: 0 <= i < |r| ==> r[i] == criteria[i].(weight := units[i] as real / SCALE as real)
  {
    seq(|criteria|, i requires 0 <= i < |criteria| => criteria[i].(weight := units[i] as real / SCALE as real))
  }

  function Normalized(criteria: seq<Criterion>): (r: seq<Criterion>)
    ensures |r| == |criteria|
  {
    if Total(criteria) <= 0.0 then criteria else Reweighted(criteria, Units(criteria))
  }

  lemma {:induction false} SumUpdate(units: seq<int>, i: nat)
    requires i < |units|
    ensures Sum(units[i := units[i] + 1]) == Sum(units) + 1
  {
    var more := units[i := units[i] + 1];
    if i == 0 {
      assert more[1..] == units[1..];
    } else {
      SumUpdate(units[1..], i - 1);
      assert more[1..] == units[1..][i - 1 := units[i] + 1];
    }
  }

  lemma {:induction false} SumBump(units: seq<int>, rs: seq<Remainder>)
    requires Indices(rs, |units|)
    ensures Sum(Bump(units, rs)) == Sum(units) + |rs|
    decreases |rs|
  {
    if rs != [] {
      SumBump(units, rs[..|rs| - 1]);
      SumUpdate(Bump(units, rs[..|rs| - 1]), rs[|rs| - 1].i);
    }
  }

  lemma {:induction false} BumpAt(units: seq<int>, rs: seq<Remainder>, i: nat)
    requires Indices(rs, |units|) && i < |units|
    requires forall j, k :: 0 <= j < k < |rs| ==> rs[j].i != rs[k].i
    ensures Bump(units, rs)[i] == units[i] + if Placed(rs, i) then 1 else 0
    decreases |rs|
  {
    if rs != [] {
      var before := rs[..|rs| - 1];
      BumpAt(units, before, i);
      if rs[|rs| - 1].i == i { assert !Placed(before, i); }
    }
  }

  // The results sum to exactly one.
  lemma {:induction false} SumExact(criteria: seq<Criterion>)
    requires Total(criteria) > 0.0
    ensures Sum(Units(criteria)) == SCALE
  {
    DeficitBounds(criteria);
    RankedIsRanking(criteria, Total(criteria));
    SumBump(Floors(criteria, Total(criteria)), Ranked(criteria, Total(criteria))[..Deficit(criteria, Total(criteria))]);
  }

  // Position i gets one more than its floor exactly when it is among the first `deficit` in the ranking.
  lemma {:induction false} UnitAt(criteria: seq<Criterion>, i: nat)
    requires Total(criteria) > 0.0 && i < |criteria|
    ensures var total := Total(criteria);
      && 0 <= Deficit(criteria, total) < |Ranked(criteria, total)|
      && Units(criteria)[i] == Share(criteria[i].weight, total).Floor +
        if Placed(Ranked(criteria, total)[..Deficit(criteria, total)], i) then 1 else 0
  {
    var total := Total(criteria);
    DeficitBounds(criteria);
    RankedIsRanking(criteria, total);
    BumpAt(Floors(criteria, total), Ranked(criteria, total)[..Deficit(criteria, total)], i);
  }

  lemma {:induction false} FewPositive(rs: seq<Remainder>, k: nat)
    requires SortedBy(LargerFirst, rs) && k < |rs| && rs[k].frac == 0.0
    requires forall j :: 0 <= j < |rs| ==> 0.0 <= rs[j].frac < 1.0
    ensures k == 0 ==> FracSum(rs) == 0.0
    ensures FracSum(rs) <= k as real
  {
    if k == 0 {
      AllZero(rs);
    } else {
      FewPositive(rs[1..], k - 1);
    }
  }

  lemma {:induction false} AllZero(rs: seq<Remainder>)
    requires SortedBy(LargerFirst, rs) && (rs != [] ==> rs[0].frac == 0.0)
    requires forall j :: 0 <= j < |rs| ==> 0.0 <= rs[j].frac < 1.0
    ensures FracSum(rs) == 0.0
  {
    if |rs| > 1 {
      assert LargerFirst(rs[0], rs[1]);
      AllZero(rs[1..]);
    }
  }

  // Only shares that are not whole are rounded up.
  lemma {:induction false} BumpedHasRemainder(criteria: seq<Criterion>, k: nat)
    requires Total(criteria) > 0.0 && k < Deficit(criteria, Total(criteria))
    ensures k < |Ranked(criteria, Total(criteria))| && Ranked(criteria, Total(criteria))[k].frac > 0.0
  {
    var total := Total(criteria);
    var rs := Ranked(criteria, total);
    DeficitBounds(criteria);
    RankedIsRanking(criteria, total);
    SortFracSum(Remainders(criteria, total, 0));
    forall j | 0 <= j < |rs| ensures 0.0 <= rs[j].frac < 1.0 {
      assert RankedRight(rs[j], criteria, total);
    }
    if rs[k].frac == 0.0 {
      FewPositive(rs, k);
    }
  }

  // Quota: every result is its exact share rounded down or up, and a whole share is kept as it is.
  lemma {:induction false} Quota(criteria: seq<Criterion>, i: nat)
    requires Total(criteria) > 0.0 && i < |criteria|
    ensures var share, unit := Share(criteria[i].weight, Total(criteria)), Units(criteria)[i] as real;
      share - 1.0 < unit < share + 1.0
  {
    var total := Total(criteria);
    var share := Share(criteria[i].weight, total);
    var rs := Ranked(criteria, total);
    UnitAt(criteria, i);
    RankedIsRanking(criteria, total);
    assert 0.0 <= Frac(share) < 1.0;
    if Placed(rs[..Deficit(criteria, total)], i) {
      var k :| 0 <= k < Deficit(criteria, total) && rs[..Deficit(criteria, total)][k].i == i;
      BumpedHasRemainder(criteria, k);
      assert RankedRight(rs[k], criteria, total);
    }
  }

  // A strictly larger weight never gets a smaller result.
  lemma {:induction false} LargerNeverLess(criteria: seq<Criterion>, i: nat, j: nat)
    requires Total(criteria) > 0.0 && i < |criteria| && j < |criteria|
    requires criteria[i].weight > criteria[j].weight
    ensures Units(criteria)[i] >= Units(criteria)[j]
  {
    var total := Total(criteria);
    var rs, d := Ranked(criteria, total), Deficit(criteria, total);
    UnitAt(criteria, i);
    UnitAt(criteria, j);
    ShareMonotone(criteria[i].weight, criteria[j].weight, total);
    if Share(criteria[i].weight, total).Floor == Share(criteria[j].weight, total).Floor && Placed(rs[..d], j) {
      RankedIsRanking(criteria, total);
      RankedBefore(criteria, total, rs, d, i, j);
    }
  }

  lemma {:induction false} ShareMonotone(a: real, b: real, total: real)
    requires a > b && total > 0.0
    ensures Share(a, total) > Share(b, total) && Share(a, total).Floor >= Share(b, total).Floor
  {
  }

  lemma {:induction false} RankedBefore(criteria: seq<Criterion>, total: real, rs: seq<Remainder>, d: nat, i: nat, j: nat)
    requires total > 0.0 && IsRanking(rs, criteria, total) && d <= |rs| && i < |criteria| && j < |criteria|
    requires Frac(Share(criteria[i].weight, total)) > Frac(Share(criteria[j].weight, total))
    requires Placed(rs[..d], j)
    ensures Placed(rs[..d], i)
  {
    var k :| 0 <= k < d && rs[..d][k].i == j;
    assert Placed(rs, i);
    var m :| 0 <= m < |rs| && rs[m].i == i;
    assert RankedRight(rs[k], criteria, total) && RankedRight(rs[m], criteria, total);
    assert forall x, y :: 0 <= x < y < |rs| ==> rs[x].frac >= rs[y].frac;
    assert rs[..d][m].i == i;
  }

  // ---- normalising twice ----

  lemma {:induction false} TotalOfUnits(criteria: seq<Criterion>, units: seq<int>)
    requires |units| == |criteria|
    ensures Total(Reweighted(criteria, units)) == Sum(units) as real / SCALE as real
  {
    if criteria != [] {
      TotalOfUnits(criteria[1..], units[1..]);
      assert Reweighted(criteria, units)[1..] == Reweighted(criteria[1..], units[1..]);
    }
  }

  lemma {:induction false} FloorsOfUnits(criteria: seq<Criterion>, units: seq<int>)
    requires |units| == |criteria|
    ensures Floors(Reweighted(criteria, units), 1.0) == units
  {
  }

  // Normalising twice changes nothing.
  lemma {:induction false} Idempotent(criteria: seq<Criterion>)
    ensures Normalized(Normalized(criteria)) == Normalized(criteria)
  {
    if Total(criteria) > 0.0 {
      var units := Units(criteria);
      var once := Normalized(criteria);
      SumExact(criteria);
      TotalOfUnits(criteria, units);
      assert Total(once) == 1.0;
      FloorsOfUnits(criteria, units);
      assert Deficit(once, 1.0) == 0;
      assert Units(once) == units;
    }
  }

  // The weights become whole ten-thousandths that sum to one, each less than a ten-thousandth from its exact share.
  lemma {:induction false} NormalizedMeans(criteria: seq<Criterion>)
    ensures Total(criteria) <= 0.0 ==> Normalized(criteria) == criteria
    ensures Total(criteria) > 0.0 ==>
      var r := Normalized(criteria);
      && |r| == |criteria| && Total(r) == 1.0
      && forall i :: 0 <= i < |r| ==>
           && r[i] == criteria[i].(weight := r[i].weight)
           && (r[i].weight * 10000.0).Floor as real == r[i].weight * 10000.0
           && -0.0001 < r[i].weight - criteria[i].weight / Total(criteria) < 0.0001
  {
    if Total(criteria) > 0.0 {
      var r := Normalized(criteria);
      SumExact(criteria);
      TotalOfUnits(criteria, Units(criteria));
      forall i | 0 <= i < |r|
        ensures (r[i].weight * 10000.0).Floor as real == r[i].weight * 10000.0
        ensures -0.0001 < r[i].weight - criteria[i].weight / Total(criteria) < 0.0001
      {
        Quota(criteria, i);
        assert r[i].weight * 10000.0 == Units(criteria)[i] as real;
      }
    }
  }

  // ---- in place ----

  lemma {:induction false} BumpStep(units: seq<int>, rs: seq<Remainder>, k: nat)
    requires Indices(rs, |units|) && k < |rs|
    ensures var before := Bump(units, rs[..k]);
      Bump(units, rs[..k + 1]) == before[rs[k].i := before[rs[k].i] + 1]
  {
    var upTo := rs[..k + 1];
    assert upTo[..|upTo| - 1] == rs[..k] && upTo[|upTo| - 1] == rs[k];
  }

  method NormalizeWeights(criteria: array<Criterion>)
    modifies criteria
    ensures criteria[..] == Normalized(old(criteria[..]))
  {
    ghost var was := criteria[..];
    var total := SumWeights(criteria);
    if total <= 0.0 {
      return;
    }
    DeficitBounds(was);
    RankedIsRanking(was, total);
    var floors := Floors(criteria[..], total);
    var remainders := Ranked(criteria[..], total);
    var deficit := Deficit(criteria[..], total);
    for k := 0 to deficit
      invariant floors == Bump(Floors(was, total), remainders[..k])
      invariant criteria[..] == was
    {
      BumpStep(Floors(was, total), remainders, k);
      floors := floors[remainders[k].i := floors[remainders[k].i] + 1];
    }
    for i := 0 to criteria.Length
      invariant |floors| == criteria.Length
      invariant forall j :: 0 <= j < i ==> criteria[j] == was[j].(weight := floors[j] as real / SCALE as real)
      invariant forall j :: i <= j < criteria.Length ==> criteria[j] == was[j]
    {
      criteria[i] := criteria[i].(weight := floors[i] as real / SCALE as real);
    }
    assert criteria[..] == Reweighted(was, floors);
  }

  method SumWeights(criteria: array<Criterion>) returns (total: real)
    ensures total == Total(criteria[..])
  {
    total := 0.0;
    for i := 0 to criteria.Length
      invariant total + Total(criteria[i..]) == Total(criteria[..])
    {
      total := total + criteria[i].weight;
      assert criteria[i..][1..] == criteria[i + 1..];
    }
    assert criteria[..] == criteria[0..];
  }

  // ---- judging completion ----

  function Achieved(criteria: seq<Criterion>): real {
    if criteria == [] then 0.0
    else (if criteria[0].passed then criteria[0].weight else 0.0) + Achieved(criteria[1..])
  }

  function Missing(criteria: seq<Criterion>): seq<string> {
    if criteria == [] then []
    else (if criteria[0].passed then [] else [criteria[0].kind]) + Missing(criteria[1..])
  }

  function Nearest(x: real): int {
    (x + 0.5).Floor
  }

  // +x.toFixed(4), halves rounded away from zero
  function Round4(x: real): real {
    if x < 0.0 then -(Nearest(-x * SCALE as real) as real / SCALE as real)
    else Nearest(x * SCALE as real) as real / SCALE as real
  }

  // A whole number of ten-thousandths, nearest to the argument, halves away from zero, and odd.
  lemma {:induction false} RoundsNearest(x: real)
    ensures (Round4(x) * 10000.0).Floor as real == Round4(x) * 10000.0
    ensures Round4(-x) == -Round4(x)
    ensures x >= 0.0 ==> x - 0.00005 < Round4(x) <= x + 0.00005
  {
    assert (Nearest(x * 10000.0) as real).Floor == Nearest(x * 10000.0);
    assert (-(Nearest(-x * 10000.0) as real)).Floor == -Nearest(-x * 10000.0);
    assert -x * 10000.0 == (-x) * 10000.0;
  }

  // The kinds reported missing are those of the criteria that were not passed.
  lemma {:induction false} MissingAre(criteria: seq<Criterion>)
    ensures forall k :: k in Missing(criteria) <==> exists c :: c in criteria && !c.passed && c.kind == k
    ensures Missing(criteria) == [] <==> forall c :: c in criteria ==> c.passed
  {
    if criteria != [] {
      MissingAre(criteria[1..]);
      assert forall c :: c in criteria <==> c == criteria[0] || c in criteria[1..];
    }
  }

  method EvaluateCompletion(criteria: seq<Criterion>, minWeight: real)
    returns (canComplete: bool, achievedWeight: real, missing: seq<string>)
    ensures achievedWeight == Round4(Achieved(criteria))
    ensures canComplete <==> achievedWeight >= minWeight
    ensures missing == Missing(criteria)
    ensures missing == [] <==> forall c :: c in criteria ==> c.passed
  {
    MissingAre(criteria);
    var achieved := 0.0;
    missing := [];
    for i := 0 to |criteria|
      invariant achieved + Achieved(criteria[i..]) == Achieved(criteria)
      invariant missing + Missing(criteria[i..]) == Missing(criteria)
    {
      if criteria[i].passed {
        achieved := achieved + criteria[i].weight;
      } else {
        missing := missing + [criteria[i].kind];
      }
    }
    assert criteria[|criteria|..] == [];
    achievedWeight := Round4(achieved);
    canComplete := achievedWeight >= minWeight;
  }

  function PassedUnits(criteria: seq<Criterion>, units: seq<int>): int
    requires |units| == |criteria|
  {
    if criteria == [] then 0
    else (if criteria[0].passed then units[0] else 0) + PassedUnits(criteria[1..], units[1..])
  }

  lemma {:induction false} AchievedUnits(criteria: seq<Criterion>, units: seq<int>)
    requires |units| == |criteria|
    ensures Achieved(Reweighted(criteria, units)) == PassedUnits(criteria, units) as real / SCALE as real
  {
    if criteria != [] {
      AchievedUnits(criteria[1..], units[1..]);
      assert Reweighted(criteria, units)[1..] == Reweighted(criteria[1..], units[1..]);
    }
  }

  lemma {:induction false} PassedOfAll(criteria: seq<Criterion>, units: seq<int>)
    requires |units| == |criteria| && forall i :: 0 <= i < |units| ==> units[i] >= 0
    ensures 0 <= PassedUnits(criteria, units) <= Sum(units)
    ensures PassedUnits(criteria, units) == Sum(units) <==>
      forall i :: 0 <= i < |criteria| ==> criteria[i].passed || units[i] == 0
  {
    if criteria != [] {
      PassedOfAll(criteria[1..], units[1..]);
      assert (forall i :: 0 <= i < |criteria| ==> criteria[i].passed || units[i] == 0) <==>
        (criteria[0].passed || units[0] == 0) &&
        (forall i :: 0 <= i < |criteria[1..]| ==> criteria[1..][i].passed || units[1..][i] == 0);
    }
  }

  lemma {:induction false} UnitsNotNegative(criteria: seq<Criterion>)
    requires Total(criteria) > 0.0 && forall i :: 0 <= i < |criteria| ==> criteria[i].weight >= 0.0
    ensures forall i :: 0 <= i < |criteria| ==> Units(criteria)[i] >= 0
  {
    forall i | 0 <= i < |criteria| ensures Units(criteria)[i] >= 0 {
      UnitAt(criteria, i);
      assert criteria[i].weight / Total(criteria) >= 0.0;
    }
  }

  lemma {:induction false} NearestWhole(n: int, x: real)
    requires x == n as real
    ensures Nearest(x) == n
  {
  }

  lemma {:induction false} RoundsExactly(n: nat)
    ensures Round4(n as real / SCALE as real) == n as real / SCALE as real
  {
    var x := n as real / SCALE as real;
    NearestWhole(n, x * SCALE as real);
  }

  // After normalising, rounding the achieved weight loses nothing, and it is the whole exactly when every
  // criterion that was not passed has come to weigh nothing.
  lemma {:induction false} NormalizedCompletion(criteria: seq<Criterion>)
    requires Total(criteria) > 0.0 && forall i :: 0 <= i < |criteria| ==> criteria[i].weight >= 0.0
    ensures var judged := Normalized(criteria);
      && Round4(Achieved(judged)) == Achieved(judged) <= 1.0
      && (Achieved(judged) == 1.0 <==> forall i :: 0 <= i < |judged| ==> judged[i].passed || judged[i].weight == 0.0)
  {
    var units := Units(criteria);
    AchievedUnits(criteria, units);
    UnitsNotNegative(criteria);
    PassedOfAll(criteria, units);
    RoundsExactly(PassedUnits(criteria, units));
    SumExact(criteria);
    assert forall i :: 0 <= i < |criteria| ==> (Normalized(criteria)[i].weight == 0.0 <==> units[i] == 0);
  }
}
