// The leave-one-out minimality test, and what it can and cannot find.
module Minimality {
  import opened Common
  import opened Ordering
  import opened GraphModel
  import opened SufficiencyOracle

  datatype Report = Report(
    required: seq<Id>, selected: seq<Id>, overInjected: seq<Id>,
    loadBearing: seq<Id>, redundant: seq<Id>, ratio: real, minimal: bool)

  method Partition(selected: seq<Id>, required: set<Id>) returns (inside: seq<Id>, outside: seq<Id>)
    requires NoDup(selected)
    ensures Elems(inside) == Elems(selected) * required && NoDup(inside)
    ensures Elems(outside) == Elems(selected) - required && NoDup(outside)
  {
    inside, outside := [], [];
    for i := 0 to |selected|
      invariant forall x :: x in inside <==> x in selected[..i] && x in required
      invariant forall x :: x in outside <==> x in selected[..i] && x !in required
      invariant NoDup(inside) && NoDup(outside)
    {
      assert selected[..i + 1] == selected[..i] + [selected[i]];
      assert selected[i] !in selected[..i];
      if selected[i] in required {
        inside := inside + [selected[i]];
      } else {
        outside := outside + [selected[i]];
      }
    }
    assert selected[..|selected|] == selected;
  }

  // Removing a required node always loses sufficiency, so the test never finds a redundant one: the
  // ratio is always 1 and a selection is minimal exactly when it lies inside the closure.
  method TestMinimality(taskId: Id, selected: seq<Id>, g: Graph) returns (r: Result<Report, OracleError>)
    ensures r.Err? <==> taskId == "" || taskId !in g.nodes
    ensures r.Ok? ==> Collapsed(g, taskId, selected, r.value)
  {
    var closure := ComputeRequiredClosure(taskId, g);
    if closure.Err? {
      return Err(closure.error);
    }
    var required := closure.value;
    var distinct := Dedup(selected);
    SortIdsFacts(distinct);
    var selectedSorted := SortIds(distinct);
    var candidates, outside := Partition(selectedSorted, Elems(required));
    SortIdsFacts(outside);
    var overInjected := SortIds(outside);
    var loadBearing: seq<Id>, redundant: seq<Id> := [], [];
    for i := 0 to |candidates|
      invariant loadBearing == candidates[..i] && redundant == []
    {
      var id := candidates[i];
      assert id in Elems(candidates);
      var reduced := Minus(selectedSorted, {id});
      var verdict := VerifySufficiency(taskId, g, reduced);
      assert id in RequiredClosure(g, taskId) && id !in Elems(reduced);
      if verdict.value.sufficient {
        redundant := redundant + [id];
      } else {
        loadBearing := loadBearing + [id];
      }
    }
    assert candidates[..|candidates|] == candidates;
    var ratio := if |candidates| == 0 then 1.0 else |loadBearing| as real / |candidates| as real;
    WholeRatio(|candidates|);
    var minimal := redundant == [] && overInjected == [];
    if overInjected == [] {
      assert Elems(overInjected) == {};
    } else {
      assert overInjected[0] in Elems(overInjected);
    }
    return Ok(Report(required, selectedSorted, overInjected, loadBearing, redundant, ratio, minimal));
  }

  lemma WholeRatio(n: nat)
    ensures n > 0 ==> n as real / n as real == 1.0
  {
  }

  ghost predicate Collapsed(g: Graph, taskId: Id, selected: seq<Id>, r: Report) {
    var required := RequiredClosure(g, taskId);
    && Elems(r.required) == required
    && Elems(r.selected) == Elems(selected)
    && Elems(r.overInjected) == Elems(selected) - required
    && Elems(r.loadBearing) == Elems(selected) * required
    && r.redundant == [] && r.ratio == 1.0
    && (r.minimal <==> Elems(selected) <= required)
  }

  // A minimal selection that is also sufficient is the closure itself.
  lemma MinimalSufficientIsClosure(g: Graph, taskId: Id, selected: seq<Id>, r: Report, v: OracleResult)
    requires Collapsed(g, taskId, selected, r) && Verdict(g, taskId, selected, v)
    ensures r.minimal && v.sufficient <==> Elems(selected) == RequiredClosure(g, taskId)
  {
  }
}
