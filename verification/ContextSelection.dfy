// selectContext: foundations first, then useful capsules, then transitive dependencies, all under one
// token budget. Utility scores, the content key and token estimates are given.
module ContextSelection {
  import opened Common
  import opened Ordering

  datatype Level = L1 | L2 | L3 | L4

  // hasContent: the content is not blank. importance is absent as 0.
  datatype Capsule = Capsule(
    id: Id, level: Level, active: bool, importance: real, hasContent: bool,
    superseded: bool, contentKey: string, tokens: nat, dependencies: seq<Id>)

  // The task's view of a capsule: how relevant it is, and its utility per token.
  datatype Scores = Scores(relevance: Capsule -> real, value: Capsule -> real)

  datatype Package = Package(selected: seq<Capsule>, used: int)

  predicate ByImportance(a: Capsule, b: Capsule) { a.importance >= b.importance }

  function ByValue(s: Scores): (Capsule, Capsule) -> bool {
    (a: Capsule, b: Capsule) => s.value(a) >= s.value(b)
  }

  function Pool(cs: seq<Capsule>): (r: seq<Capsule>)
    ensures forall c :: c in r <==> c in cs && c.active && !c.level.L4?
  {
    if cs == [] then []
    else if cs[0].active && !cs[0].level.L4? then [cs[0]] + Pool(cs[1..])
    else Pool(cs[1..])
  }

  function Foundations(cs: seq<Capsule>): (r: seq<Capsule>)
    ensures forall c :: c in r <==> c in cs && c.level.L1? && c.hasContent
  {
    if cs == [] then []
    else if cs[0].level.L1? && cs[0].hasContent then [cs[0]] + Foundations(cs[1..])
    else Foundations(cs[1..])
  }

  predicate IsCandidate(s: Scores, c: Capsule) {
    (c.level.L2? || c.level.L3?) && c.hasContent && s.relevance(c) > 0.0
  }

  function Candidates(s: Scores, cs: seq<Capsule>): (r: seq<Capsule>)
    ensures forall c :: c in r <==> c in cs && IsCandidate(s, c)
  {
    if cs == [] then []
    else if IsCandidate(s, cs[0]) then [cs[0]] + Candidates(s, cs[1..])
    else Candidates(s, cs[1..])
  }

  function Cost(cs: seq<Capsule>): nat {
    if cs == [] then 0 else Cost(cs[..|cs| - 1]) + cs[|cs| - 1].tokens
  }

  predicate Has(cs: seq<Capsule>, id: Id) {
    exists c :: c in cs && c.id == id
  }

  // A selection in progress: drawn from the pool, without repeats if the pool has none, costed, and within the
  // budget.
  ghost predicate Sound(pool: seq<Capsule>, budget: int, selected: seq<Capsule>, used: int) {
    && (NoDup(pool) ==> NoDup(selected)) && (forall c :: c in selected ==> c in pool)
    && used == Cost(selected)
    && (used <= budget || selected == [])
  }

  ghost predicate Overflows(c: Capsule, used: int, budget: int) {
    used + c.tokens > budget
  }

  lemma AddSound(pool: seq<Capsule>, budget: int, selected: seq<Capsule>, used: int, c: Capsule)
    requires Sound(pool, budget, selected, used) && c in pool && used + c.tokens <= budget
    requires NoDup(pool) ==> c !in selected
    ensures Sound(pool, budget, selected + [c], used + c.tokens)
  {
    assert (selected + [c])[..|selected|] == selected;
  }

  // ---- 1: foundations ----

  // Taken in order, each if it still fits.
  function Taken(cs: seq<Capsule>, used: int, budget: int): seq<Capsule> {
    if cs == [] then []
    else if used + cs[0].tokens > budget then Taken(cs[1..], used, budget)
    else [cs[0]] + Taken(cs[1..], used + cs[0].tokens, budget)
  }

  // What has been taken, its cost, and what the rest will add.
  ghost predicate FillingUp(l1: seq<Capsule>, i: nat, selected: seq<Capsule>, used: int, budget: int)
    requires i <= |l1|
  {
    selected + Taken(l1[i..], used, budget) == Taken(l1, 0, budget) && used == Cost(selected)
  }

  lemma FillStart(l1: seq<Capsule>, budget: int)
    ensures FillingUp(l1, 0, [], 0, budget)
  {
    assert l1[0..] == l1;
  }

  lemma {:induction false} FillStep(l1: seq<Capsule>, i: nat, selected: seq<Capsule>, used: int, budget: int)
    requires i < |l1| && FillingUp(l1, i, selected, used, budget)
    ensures used + l1[i].tokens > budget ==> FillingUp(l1, i + 1, selected, used, budget)
    ensures used + l1[i].tokens <= budget ==> FillingUp(l1, i + 1, selected + [l1[i]], used + l1[i].tokens, budget)
  {
    assert l1[i..][1..] == l1[i + 1..];
    var later := Taken(l1[i + 1..], used + l1[i].tokens, budget);
    assert selected + ([l1[i]] + later) == (selected + [l1[i]]) + later;
    assert (selected + [l1[i]])[..|selected|] == selected;
  }

  lemma FillEnd(l1: seq<Capsule>, selected: seq<Capsule>, used: int, budget: int)
    requires FillingUp(l1, |l1|, selected, used, budget)
    ensures selected == Taken(l1, 0, budget) && used == Cost(selected)
  {
    assert l1[|l1|..] == [];
  }

  lemma {:induction false} CostHead(c: Capsule, cs: seq<Capsule>)
    ensures Cost([c] + cs) == c.tokens + Cost(cs)
  {
    if cs == [] {
      assert [c] + cs == [c] && [c][..0] == [];
    } else {
      var n := |cs| - 1;
      assert ([c] + cs)[..n + 1] == [c] + cs[..n];
      CostHead(c, cs[..n]);
    }
  }

  lemma {:induction false} CostAppend(a: seq<Capsule>, b: seq<Capsule>)
    ensures Cost(a + b) == Cost(a) + Cost(b)
    decreases |b|
  {
    if b == [] {
      assert a + b == a;
    } else {
      var n := |b| - 1;
      assert (a + b)[..|a| + n] == a + b[..n];
      CostAppend(a, b[..n]);
    }
  }

  lemma {:induction false} TakenFrom(cs: seq<Capsule>, used: int, budget: int)
    ensures forall c :: c in Taken(cs, used, budget) ==> c in cs
  {
    if cs != [] {
      TakenFrom(cs[1..], used, budget);
      TakenFrom(cs[1..], used + cs[0].tokens, budget);
    }
  }

  lemma {:induction false} HeadNew(cs: seq<Capsule>)
    requires cs != [] && NoDup(cs)
    ensures cs[0] !in cs[1..] && NoDup(cs[1..])
  {
  }

  lemma {:induction false} TakenOnce(cs: seq<Capsule>, used: int, budget: int)
    requires NoDup(cs)
    ensures NoDup(Taken(cs, used, budget))
  {
    if cs != [] {
      HeadNew(cs);
      if used + cs[0].tokens > budget {
        TakenOnce(cs[1..], used, budget);
      } else {
        TakenOnce(cs[1..], used + cs[0].tokens, budget);
        TakenFrom(cs[1..], used + cs[0].tokens, budget);
      }
    }
  }

  lemma {:induction false} TakenWithin(cs: seq<Capsule>, used: int, budget: int)
    ensures Taken(cs, used, budget) == [] || used + Cost(Taken(cs, used, budget)) <= budget
  {
    if cs != [] {
      var c := cs[0];
      TakenWithin(cs[1..], used, budget);
      TakenWithin(cs[1..], used + c.tokens, budget);
      CostHead(c, Taken(cs[1..], used + c.tokens, budget));
    }
  }

  // What such a filling leaves out no longer fits.
  lemma {:induction false} TakenMaximal(cs: seq<Capsule>, used: int, budget: int, c: Capsule)
    requires c in cs
    ensures c in Taken(cs, used, budget) || used + Cost(Taken(cs, used, budget)) + c.tokens > budget
  {
    var c0, rest := cs[0], cs[1..];
    if used + c0.tokens > budget {
      if c != c0 { TakenMaximal(rest, used, budget, c); }
    } else {
      CostHead(c0, Taken(rest, used + c0.tokens, budget));
      if c != c0 { TakenMaximal(rest, used + c0.tokens, budget, c); }
    }
  }

  method Fill(l1: seq<Capsule>, budget: int) returns (selected: seq<Capsule>, used: int)
    ensures selected == Taken(l1, 0, budget) && used == Cost(selected)
  {
    selected, used := [], 0;
    FillStart(l1, budget);
    for i := 0 to |l1|
      invariant FillingUp(l1, i, selected, used, budget)
    {
      FillStep(l1, i, selected, used, budget);
      if used + l1[i].tokens > budget {
        continue;
      }
      selected := selected + [l1[i]];
      used := used + l1[i].tokens;
    }
    FillEnd(l1, selected, used, budget);
  }

  method SelectFoundations(pool: seq<Capsule>, budget: int) returns (selected: seq<Capsule>, used: int)
    ensures Sound(pool, budget, selected, used)
    ensures selected == Taken(RankedFoundations(pool), 0, budget)
    ensures forall c :: c in selected ==> c.level.L1? && c.hasContent
    ensures forall c :: c in pool && c.level.L1? && c.hasContent ==> c in selected || Overflows(c, used, budget)
  {
    selected, used := Fill(RankedFoundations(pool), budget);
    var l1 := RankedFoundations(pool);
    TakenFrom(l1, 0, budget);
    if NoDup(pool) { TakenOnce(l1, 0, budget); }
    TakenWithin(l1, 0, budget);
    forall c | c in l1 ensures c in selected || Overflows(c, used, budget) {
      TakenMaximal(l1, 0, budget, c);
    }
  }

  // The foundations, most important first.
  function RankedFoundations(pool: seq<Capsule>): (r: seq<Capsule>)
    ensures (NoDup(pool) ==> NoDup(r)) && forall c :: c in r <==> c in pool && c.level.L1? && c.hasContent
    ensures SortedBy(ByImportance, r) && multiset(r) == multiset(Foundations(pool))
  {
    var cs := Foundations(pool);
    SortElems(ByImportance, cs);
    SortMembers(ByImportance, cs);
    SortSorted(ByImportance, cs);
    if NoDup(pool) then
      FoundationsNoDup(pool);
      PermutationNoDup(cs, Sort(ByImportance, cs));
      Sort(ByImportance, cs)
    else Sort(ByImportance, cs)
  }

  lemma {:induction false} FoundationsNoDup(cs: seq<Capsule>)
    requires NoDup(cs)
    ensures NoDup(Foundations(cs))
  {
    if cs != [] {
      FoundationsNoDup(cs[1..]);
      assert cs[0] !in cs[1..];
    }
  }

  lemma {:induction false} CandidatesNoDup(s: Scores, cs: seq<Capsule>)
    requires NoDup(cs)
    ensures NoDup(Candidates(s, cs))
  {
    if cs != [] {
      CandidatesNoDup(s, cs[1..]);
      assert cs[0] !in cs[1..];
    }
  }

  // ---- 2: useful capsules ----

  ghost predicate Represented(selected: seq<Capsule>, s: Scores, c: Capsule) {
    exists d :: d in selected && IsCandidate(s, d) && d.contentKey == c.contentKey
  }

  // Why a candidate may be absent.
  ghost predicate Excused(selected: seq<Capsule>, s: Scores, c: Capsule, used: int, budget: int) {
    c in selected || c.superseded || Represented(selected, s, c) || Overflows(c, used, budget)
  }

  lemma StillExcused(a: seq<Capsule>, b: seq<Capsule>, s: Scores, c: Capsule, used: int, used': int, budget: int)
    requires Excused(a, s, c, used, budget) && used <= used' && forall d :: d in a ==> d in b
    ensures Excused(b, s, c, used', budget)
  {
  }

  // No two selected candidates have the same content key.
  ghost predicate KeysDiffer(s: Scores, selected: seq<Capsule>) {
    forall c, d :: c in selected && d in selected && IsCandidate(s, c) && IsCandidate(s, d)
      ==> c.contentKey == d.contentKey ==> c == d
  }

  // Taken in order, each if it is current, its content is new and it still fits.
  function TakenUseful(cs: seq<Capsule>, used: int, keys: set<string>, budget: int): seq<Capsule> {
    if cs == [] then []
    else if cs[0].superseded || cs[0].contentKey in keys || used + cs[0].tokens > budget then
      TakenUseful(cs[1..], used, keys, budget)
    else [cs[0]] + TakenUseful(cs[1..], used + cs[0].tokens, keys + {cs[0].contentKey}, budget)
  }

  ghost predicate FillingUseful(cs: seq<Capsule>, i: nat, selected0: seq<Capsule>, selected: seq<Capsule>,
    used0: int, used: int, keys: set<string>, budget: int)
    requires i <= |cs|
  {
    && selected + TakenUseful(cs[i..], used, keys, budget) == selected0 + TakenUseful(cs, used0, {}, budget)
    && used == Cost(selected)
  }

  lemma UsefulStart(cs: seq<Capsule>, selected0: seq<Capsule>, used0: int, budget: int)
    requires used0 == Cost(selected0)
    ensures FillingUseful(cs, 0, selected0, selected0, used0, used0, {}, budget)
  {
    assert cs[0..] == cs;
  }

  lemma {:induction false} UsefulStep(cs: seq<Capsule>, i: nat, selected0: seq<Capsule>, selected: seq<Capsule>,
    used0: int, used: int, keys: set<string>, budget: int)
    requires i < |cs| && FillingUseful(cs, i, selected0, selected, used0, used, keys, budget)
    ensures var c := cs[i];
      if c.superseded || c.contentKey in keys || used + c.tokens > budget then
        FillingUseful(cs, i + 1, selected0, selected, used0, used, keys, budget)
      else
        FillingUseful(cs, i + 1, selected0, selected + [c], used0, used + c.tokens, keys + {c.contentKey}, budget)
  {
    var c := cs[i];
    assert cs[i..][1..] == cs[i + 1..];
    var later := TakenUseful(cs[i + 1..], used + c.tokens, keys + {c.contentKey}, budget);
    assert selected + ([c] + later) == (selected + [c]) + later;
    assert (selected + [c])[..|selected|] == selected;
  }

  lemma UsefulEnd(cs: seq<Capsule>, selected0: seq<Capsule>, selected: seq<Capsule>,
    used0: int, used: int, keys: set<string>, budget: int)
    requires FillingUseful(cs, |cs|, selected0, selected, used0, used, keys, budget)
    ensures selected == selected0 + TakenUseful(cs, used0, {}, budget) && used == Cost(selected)
  {
    assert cs[|cs|..] == [];
  }

  predicate KeyTaken(cs: seq<Capsule>, key: string) {
    exists d :: d in cs && d.contentKey == key
  }

  // Such a filling keeps to the budget, takes each content once, and leaves out a candidate only if it is superseded,
  // its content is there, or it no longer fits.
  lemma {:induction false} UsefulFacts(cs: seq<Capsule>, used: int, keys: set<string>, budget: int)
    ensures var r := TakenUseful(cs, used, keys, budget);
      && (forall c :: c in r ==> c in cs && !c.superseded && c.contentKey !in keys)
      && (r == [] || used + Cost(r) <= budget)
  {
    if cs != [] {
      var c := cs[0];
      UsefulFacts(cs[1..], used, keys, budget);
      UsefulFacts(cs[1..], used + c.tokens, keys + {c.contentKey}, budget);
      CostHead(c, TakenUseful(cs[1..], used + c.tokens, keys + {c.contentKey}, budget));
    }
  }

  lemma {:induction false} UsefulOnce(cs: seq<Capsule>, used: int, keys: set<string>, budget: int)
    requires NoDup(cs)
    ensures NoDup(TakenUseful(cs, used, keys, budget))
  {
    if cs != [] {
      var c := cs[0];
      HeadNew(cs);
      UsefulOnce(cs[1..], used, keys, budget);
      UsefulOnce(cs[1..], used + c.tokens, keys + {c.contentKey}, budget);
      UsefulFacts(cs[1..], used + c.tokens, keys + {c.contentKey}, budget);
    }
  }

  lemma {:induction false} UsefulKeys(cs: seq<Capsule>, used: int, keys: set<string>, budget: int)
    ensures var r := TakenUseful(cs, used, keys, budget);
      forall c, d :: c in r && d in r && c.contentKey == d.contentKey ==> c == d
  {
    if cs != [] {
      var c := cs[0];
      UsefulKeys(cs[1..], used, keys, budget);
      UsefulKeys(cs[1..], used + c.tokens, keys + {c.contentKey}, budget);
      UsefulFacts(cs[1..], used + c.tokens, keys + {c.contentKey}, budget);
    }
  }

  lemma {:induction false} UsefulExcused(cs: seq<Capsule>, used: int, keys: set<string>, budget: int, c: Capsule)
    requires c in cs
    ensures var r := TakenUseful(cs, used, keys, budget);
      c in r || c.superseded || c.contentKey in keys || KeyTaken(r, c.contentKey) || used + Cost(r) + c.tokens > budget
  {
    var c0, rest := cs[0], cs[1..];
    if c0.superseded || c0.contentKey in keys || used + c0.tokens > budget {
      if c != c0 { UsefulExcused(rest, used, keys, budget, c); }
    } else {
      var later := TakenUseful(rest, used + c0.tokens, keys + {c0.contentKey}, budget);
      CostHead(c0, later);
      assert c0 in [c0] + later;
      if c != c0 {
        UsefulExcused(rest, used + c0.tokens, keys + {c0.contentKey}, budget, c);
        if KeyTaken(later, c.contentKey) {
          var d :| d in later && d.contentKey == c.contentKey;
          assert d in [c0] + later;
        }
      }
    }
  }

  lemma {:induction false} UsefulSound(pool: seq<Capsule>, s: Scores, budget: int, selected0: seq<Capsule>, used0: int)
    requires Sound(pool, budget, selected0, used0) && forall c :: c in selected0 ==> c.level.L1?
    ensures var selected := selected0 + TakenUseful(RankedCandidates(s, pool), used0, {}, budget);
      && Sound(pool, budget, selected, Cost(selected)) && KeysDiffer(s, selected)
      && (forall c :: c in selected ==> c in selected0 || (IsCandidate(s, c) && !c.superseded))
      && used0 <= Cost(selected)
  {
    var cs := RankedCandidates(s, pool);
    UsefulFacts(cs, used0, {}, budget);
    if NoDup(pool) { UsefulOnce(cs, used0, {}, budget); }
    UsefulKeys(cs, used0, {}, budget);
    CostAppend(selected0, TakenUseful(cs, used0, {}, budget));
  }

  lemma {:induction false} CandidateExcused(pool: seq<Capsule>, s: Scores, budget: int, selected0: seq<Capsule>, c: Capsule)
    requires c in pool && IsCandidate(s, c)
    ensures var selected := selected0 + TakenUseful(RankedCandidates(s, pool), Cost(selected0), {}, budget);
      Excused(selected, s, c, Cost(selected), budget)
  {
    var cs := RankedCandidates(s, pool);
    var more := TakenUseful(cs, Cost(selected0), {}, budget);
    UsefulExcused(cs, Cost(selected0), {}, budget, c);
    UsefulFacts(cs, Cost(selected0), {}, budget);
    CostAppend(selected0, more);
    if KeyTaken(more, c.contentKey) {
      var d :| d in more && d.contentKey == c.contentKey;
      assert d in selected0 + more && IsCandidate(s, d);
    }
  }

  method FillUseful(cs: seq<Capsule>, budget: int, selected0: seq<Capsule>, used0: int)
    returns (selected: seq<Capsule>, used: int)
    requires used0 == Cost(selected0)
    ensures selected == selected0 + TakenUseful(cs, used0, {}, budget) && used == Cost(selected)
  {
    selected, used := selected0, used0;
    var seenContent: set<string> := {};
    UsefulStart(cs, selected0, used0, budget);
    for i := 0 to |cs|
      invariant FillingUseful(cs, i, selected0, selected, used0, used, seenContent, budget)
    {
      var c := cs[i];
      UsefulStep(cs, i, selected0, selected, used0, used, seenContent, budget);
      if c.superseded || c.contentKey in seenContent || used + c.tokens > budget {
        continue;
      }
      selected := selected + [c];
      used := used + c.tokens;
      seenContent := seenContent + {c.contentKey};
    }
    UsefulEnd(cs, selected0, selected, used0, used, seenContent, budget);
  }

  method SelectUseful(pool: seq<Capsule>, s: Scores, budget: int, selected0: seq<Capsule>, used0: int)
    returns (selected: seq<Capsule>, used: int)
    requires Sound(pool, budget, selected0, used0)
    requires forall c :: c in selected0 ==> c.level.L1?
    ensures selected == selected0 + TakenUseful(RankedCandidates(s, pool), used0, {}, budget)
    ensures Sound(pool, budget, selected, used) && selected0 <= selected && used0 <= used
    ensures forall c :: c in selected ==> c in selected0 || (IsCandidate(s, c) && !c.superseded)
    ensures forall c :: c in pool && IsCandidate(s, c) ==> Excused(selected, s, c, used, budget)
    ensures KeysDiffer(s, selected)
  {
    selected, used := FillUseful(RankedCandidates(s, pool), budget, selected0, used0);
    UsefulSound(pool, s, budget, selected0, used0);
    forall c | c in pool && IsCandidate(s, c) ensures Excused(selected, s, c, used, budget) {
      CandidateExcused(pool, s, budget, selected0, c);
    }
  }

  // The candidates, highest utility per token first.
  function RankedCandidates(s: Scores, pool: seq<Capsule>): (r: seq<Capsule>)
    ensures (NoDup(pool) ==> NoDup(r)) && forall c :: c in r <==> c in pool && IsCandidate(s, c)
    ensures SortedBy(ByValue(s), r) && multiset(r) == multiset(Candidates(s, pool))
  {
    var cs := Candidates(s, pool);
    SortElems(ByValue(s), cs);
    SortMembers(ByValue(s), cs);
    SortSorted(ByValue(s), cs);
    if NoDup(pool) then
      CandidatesNoDup(s, pool);
      PermutationNoDup(cs, Sort(ByValue(s), cs));
      Sort(ByValue(s), cs)
    else Sort(ByValue(s), cs)
  }

  // ---- 3: transitive dependencies ----

  function ById(pool: seq<Capsule>): (m: map<Id, Capsule>)
    ensures forall x :: x in m <==> Has(pool, x)
    ensures forall x :: x in m ==> m[x] in pool && m[x].id == x
  {
    if pool == [] then map[]
    else
      var m := ById(pool[..|pool| - 1]);
      var c := pool[|pool| - 1];
      assert pool == pool[..|pool| - 1] + [c];
      assert forall d :: d in pool <==> d == c || d in pool[..|pool| - 1];
      assert forall x :: Has(pool, x) <==> x == c.id || Has(pool[..|pool| - 1], x);
      m[c.id := c]
  }

  // What a list of capsules depends on, in order.
  function AllDependencies(cs: seq<Capsule>): seq<Id> {
    if cs == [] then [] else AllDependencies(cs[..|cs| - 1]) + cs[|cs| - 1].dependencies
  }

  lemma {:induction false} InAllDependencies(cs: seq<Capsule>, x: Id)
    ensures x in AllDependencies(cs) <==> exists c :: c in cs && x in c.dependencies
  {
    if cs != [] {
      var n := |cs| - 1;
      InAllDependencies(cs[..n], x);
      assert cs == cs[..n] + [cs[n]];
      if c :| c in cs && x in c.dependencies {
        assert c in cs[..n] || c == cs[n];
      }
    }
  }

  function IdsOf(cs: seq<Capsule>): set<Id> {
    set c | c in cs :: c.id
  }

  // A dependency is settled: not an available capsule, already selected, or too big for what is left.
  ghost predicate Settled(byId: map<Id, Capsule>, seen: set<Id>, used: int, budget: int, d: Id) {
    d !in byId || d in seen || Overflows(byId[d], used, budget)
  }

  ghost predicate DependenciesMet(byId: map<Id, Capsule>, seen: set<Id>, used: int, budget: int,
    selected: seq<Capsule>, queue: seq<Id>) {
    forall c, d :: c in selected && d in c.dependencies ==> d in queue || Settled(byId, seen, used, budget, d)
  }

  // Everything added is a dependency of something selected.
  ghost predicate Justified(selected0: seq<Capsule>, selected: seq<Capsule>) {
    forall c :: c in selected ==> c in selected0 || c.id in AllDependencies(selected)
  }

  ghost predicate QueueJustified(selected: seq<Capsule>, queue: seq<Id>) {
    forall d :: d in queue ==> d in AllDependencies(selected)
  }

  // The state of the dependency worklist.
  ghost predicate Filling(pool: seq<Capsule>, budget: int, selected0: seq<Capsule>,
    selected: seq<Capsule>, seen: set<Id>, used: int, queue: seq<Id>) {
    && seen == IdsOf(selected)
    && DependenciesMet(ById(pool), seen, used, budget, selected, queue)
    && Justified(selected0, selected) && QueueJustified(selected, queue)
  }

  method SelectDependencies(pool: seq<Capsule>, budget: int, selected0: seq<Capsule>, used0: int)
    returns (selected: seq<Capsule>, used: int)
    requires Sound(pool, budget, selected0, used0)
    requires forall c :: c in pool ==> c.active
    ensures Sound(pool, budget, selected, used) && selected0 <= selected && used0 <= used
    ensures Justified(selected0, selected)
    ensures forall c, d :: c in selected && d in c.dependencies && Has(pool, d) ==>
      Has(selected, d) || Overflows(ById(pool)[d], used, budget)
  {
    selected, used := selected0, used0;
    var seen := IdsOf(selected);
    var queue := AllDependencies(selected);
    StartFilling(pool, budget, selected, seen, used);
    while queue != []
      invariant Sound(pool, budget, selected, used) && selected0 <= selected && used0 <= used
      invariant Filling(pool, budget, selected0, selected, seen, used, queue)
      decreases ById(pool).Keys - seen, |queue|
    {
      assert queue == [queue[0]] + queue[1..];
      selected, seen, used, queue :=
        NextDependency(pool, budget, selected0, selected, seen, used, queue[0], queue[1..]);
    }
    AllSettled(pool, budget, selected0, selected, seen, used);
  }

  // One turn of the worklist: the head is passed over, or selected and its own dependencies queued.
  method NextDependency(pool: seq<Capsule>, budget: int, ghost selected0: seq<Capsule>,
    selected: seq<Capsule>, seen: set<Id>, used: int, depId: Id, rest: seq<Id>)
    returns (selected': seq<Capsule>, seen': set<Id>, used': int, queue': seq<Id>)
    requires Sound(pool, budget, selected, used)
    requires forall c :: c in pool ==> c.active
    requires Filling(pool, budget, selected0, selected, seen, used, [depId] + rest)
    ensures Sound(pool, budget, selected', used') && selected <= selected' && used <= used'
    ensures Filling(pool, budget, selected0, selected', seen', used', queue')
    ensures (seen' == seen && queue' == rest) || ById(pool).Keys - seen' < ById(pool).Keys - seen
  {
    var byId := ById(pool);
    if depId in seen || depId !in byId || !byId[depId].active || used + byId[depId].tokens > budget {
      PassDependency(pool, budget, selected0, selected, seen, used, depId, rest);
      return selected, seen, used, rest;
    }
    var dep := byId[depId];
    assert dep.id == depId && dep in pool && dep !in selected;
    assert depId in byId.Keys - seen;
    selected', seen', used', queue' := Take(pool, budget, selected0, selected, seen, used, rest, dep);
  }

  method Take(pool: seq<Capsule>, budget: int, ghost selected0: seq<Capsule>,
    selected: seq<Capsule>, seen: set<Id>, used: int, rest: seq<Id>, dep: Capsule)
    returns (selected': seq<Capsule>, seen': set<Id>, used': int, queue': seq<Id>)
    requires Sound(pool, budget, selected, used) && dep in pool && dep !in selected && used + dep.tokens <= budget
    requires Filling(pool, budget, selected0, selected, seen, used, [dep.id] + rest)
    ensures Sound(pool, budget, selected', used') && selected <= selected' && used <= used'
    ensures Filling(pool, budget, selected0, selected', seen', used', queue')
    ensures seen' == seen + {dep.id}
  {
    AddSound(pool, budget, selected, used, dep);
    TakeDependency(pool, budget, selected0, selected, seen, used, rest, dep);
    return selected + [dep], seen + {dep.id}, used + dep.tokens, rest + dep.dependencies;
  }

  lemma StartFilling(pool: seq<Capsule>, budget: int, selected: seq<Capsule>, seen: set<Id>, used: int)
    requires seen == IdsOf(selected)
    ensures Filling(pool, budget, selected, selected, seen, used, AllDependencies(selected))
  {
    forall c, d | c in selected && d in c.dependencies ensures d in AllDependencies(selected) {
      InAllDependencies(selected, d);
    }
  }

  lemma AllSettled(pool: seq<Capsule>, budget: int, selected0: seq<Capsule>,
    selected: seq<Capsule>, seen: set<Id>, used: int)
    requires Filling(pool, budget, selected0, selected, seen, used, [])
    ensures forall c, d :: c in selected && d in c.dependencies && Has(pool, d) ==>
      Has(selected, d) || Overflows(ById(pool)[d], used, budget)
  {
    var byId := ById(pool);
    forall c, d | c in selected && d in c.dependencies && Has(pool, d)
      ensures Has(selected, d) || Overflows(byId[d], used, budget)
    {
      assert Settled(byId, seen, used, budget, d);
    }
  }

  lemma PassDependency(pool: seq<Capsule>, budget: int, selected0: seq<Capsule>,
    selected: seq<Capsule>, seen: set<Id>, used: int, depId: Id, rest: seq<Id>)
    requires Filling(pool, budget, selected0, selected, seen, used, [depId] + rest)
    requires Settled(ById(pool), seen, used, budget, depId)
    ensures Filling(pool, budget, selected0, selected, seen, used, rest)
  {
    assert forall d :: d in [depId] + rest <==> d == depId || d in rest;
  }

  lemma TakeDependency(pool: seq<Capsule>, budget: int, selected0: seq<Capsule>,
    selected: seq<Capsule>, seen: set<Id>, used: int, rest: seq<Id>, dep: Capsule)
    requires Filling(pool, budget, selected0, selected, seen, used, [dep.id] + rest)
    ensures Filling(pool, budget, selected0, selected + [dep], seen + {dep.id}, used + dep.tokens, rest + dep.dependencies)
  {
    var more := selected + [dep];
    assert forall c :: c in more <==> c in selected || c == dep;
    assert forall d :: d in [dep.id] + rest <==> d == dep.id || d in rest;
    assert forall d :: d in rest + dep.dependencies <==> d in rest || d in dep.dependencies;
    assert dep in more;
    TakeMet(ById(pool), seen, used, budget, selected, rest, dep);
    assert more[..|selected|] == selected;
    assert dep.id in [dep.id] + rest;
    assert seen + {dep.id} == IdsOf(more);
  }

  lemma TakeMet(byId: map<Id, Capsule>, seen: set<Id>, used: int, budget: int,
    selected: seq<Capsule>, rest: seq<Id>, dep: Capsule)
    requires DependenciesMet(byId, seen, used, budget, selected, [dep.id] + rest)
    ensures DependenciesMet(byId, seen + {dep.id}, used + dep.tokens, budget, selected + [dep], rest + dep.dependencies)
  {
    forall c, d | c in selected + [dep] && d in c.dependencies
      ensures d in rest + dep.dependencies || Settled(byId, seen + {dep.id}, used + dep.tokens, budget, d)
    {
      if c in selected {
        assert d in [dep.id] + rest || Settled(byId, seen, used, budget, d);
      } else {
        assert c == dep;
      }
    }
  }

  // ---- the package ----

  // Everything the finished package promises.
  ghost predicate Packed(cs: seq<Capsule>, s: Scores, budget: int, p: Package) {
    var pool := Pool(cs);
    && Sound(pool, budget, p.selected, p.used) && (NoDup(cs) ==> NoDup(p.selected))
    && (forall c :: c in pool && c.level.L1? && c.hasContent ==> c in p.selected || Overflows(c, p.used, budget))
    && (forall c :: c in pool && IsCandidate(s, c) ==> Excused(p.selected, s, c, p.used, budget))
    && (forall c, d :: c in p.selected && d in c.dependencies && Has(pool, d) ==>
        Has(p.selected, d) || Overflows(ById(pool)[d], p.used, budget))
    && (forall c :: c in p.selected ==>
        (c.level.L1? && c.hasContent) || (IsCandidate(s, c) && !c.superseded)
        || c.id in AllDependencies(p.selected))
  }

  // The two orders in which capsules compete: by importance, and by utility per token, highest first.
  lemma {:induction false} CompetingOrders(pool: seq<Capsule>, s: Scores)
    ensures forall i, j :: 0 <= i < j < |RankedFoundations(pool)| ==>
      RankedFoundations(pool)[i].importance >= RankedFoundations(pool)[j].importance
    ensures forall i, j :: 0 <= i < j < |RankedCandidates(s, pool)| ==>
      s.value(RankedCandidates(s, pool)[i]) >= s.value(RankedCandidates(s, pool)[j])
  {
    var l1, cs := RankedFoundations(pool), RankedCandidates(s, pool);
    forall i, j | 0 <= i < j < |l1| ensures l1[i].importance >= l1[j].importance { assert ByImportance(l1[i], l1[j]); }
    forall i, j | 0 <= i < j < |cs| ensures s.value(cs[i]) >= s.value(cs[j]) { assert ByValue(s)(cs[i], cs[j]); }
  }

  // The package in plain terms. What is in it is an active capsule above level 4 of the list: a foundation with content,
  // or a relevant, current capsule of level 2 or 3 with content, or a dependency of something in it. The cost is the sum
  // of the tokens and, if anything is in it, within the budget.
  ghost predicate Explained(cs: seq<Capsule>, s: Scores, budget: int, p: Package) {
    && (forall c :: c in p.selected ==>
          && c in cs && c.active && c.level != L4
          && (|| (c.level == L1 && c.hasContent)
              || ((c.level == L2 || c.level == L3) && c.hasContent && s.relevance(c) > 0.0 && !c.superseded)
              || exists d :: d in p.selected && c.id in d.dependencies))
    && (p.selected == [] || p.used <= budget)
    && (forall c :: c in cs && c.active && c.level == L1 && c.hasContent ==> c in p.selected || p.used + c.tokens > budget)
    && (forall c :: c in cs && c.active && (c.level == L2 || c.level == L3) && c.hasContent
                      && s.relevance(c) > 0.0 && !c.superseded ==>
          || c in p.selected || p.used + c.tokens > budget
          || exists d :: d in p.selected && d.contentKey == c.contentKey)
  }

  lemma {:induction false} PackedExplained(cs: seq<Capsule>, s: Scores, budget: int, p: Package)
    requires Packed(cs, s, budget, p)
    ensures Explained(cs, s, budget, p)
  {
    forall c | c in p.selected
      ensures c in cs && c.active && c.level != L4
      ensures || (c.level == L1 && c.hasContent)
        || ((c.level == L2 || c.level == L3) && c.hasContent && s.relevance(c) > 0.0 && !c.superseded)
        || exists d :: d in p.selected && c.id in d.dependencies
    {
      InAllDependencies(p.selected, c.id);
    }
  }

  // The cost adds up whatever the order: the tokens of every capsule, once for each time it is there.
  lemma {:induction false} CostMeans(cs: seq<Capsule>, c: Capsule)
    ensures Cost([]) == 0 && Cost(cs + [c]) == Cost(cs) + c.tokens
  {
    assert (cs + [c])[..|cs|] == cs;
  }

  lemma {:induction false} PoolNoDup(cs: seq<Capsule>)
    requires NoDup(cs)
    ensures NoDup(Pool(cs))
  {
    if cs != [] {
      PoolNoDup(cs[1..]);
      assert cs[0] !in cs[1..];
    }
  }

  method SelectContext(cs: seq<Capsule>, s: Scores, budget: int) returns (p: Package)
    ensures Packed(cs, s, budget, p) && Explained(cs, s, budget, p)
  {
    var pool := Pool(cs);
    if NoDup(cs) {
      PoolNoDup(cs);
    }
    var l1, used1 := SelectFoundations(pool, budget);
    var useful, used2 := SelectUseful(pool, s, budget, l1, used1);
    var selected, used := SelectDependencies(pool, budget, useful, used2);
    PrefixMembers(l1, useful);
    PrefixMembers(useful, selected);
    forall c | c in pool && IsCandidate(s, c) ensures Excused(selected, s, c, used, budget) {
      StillExcused(useful, selected, s, c, used2, used, budget);
    }
    p := Package(selected, used);
    PackedExplained(cs, s, budget, p);
  }

  lemma PrefixMembers(a: seq<Capsule>, b: seq<Capsule>)
    requires a <= b
    ensures forall c :: c in a ==> c in b
  {
    forall c | c in a ensures c in b {
      var i :| 0 <= i < |a| && a[i] == c;
      assert b[i] == c;
    }
  }
}
