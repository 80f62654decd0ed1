// The stored tasks and the commands that load one, change it and store it again; the completion gate as it is
// evaluated. A command that is refused stores nothing.
module TaskStores {
  import opened Common
  import opened ContractGate

  type Tasks = map<Id, Task>

  // What a command leaves in the store.
  function Stored(tasks: Tasks, id: Id, c: Command): Tasks {
    if id in tasks && Try(tasks[id], c).Some? then tasks[id := Try(tasks[id], c).value] else tasks
  }

  predicate Accepted(tasks: Tasks, id: Id, c: Command) {
    id in tasks && Try(tasks[id], c).Some?
  }

  // ---- the gate ----

  lemma {:induction false} ChecksAppend(checks: seq<Check>, c: Check, k: Id)
    ensures ChecksOf(checks + [c], k) == ChecksOf(checks, k) + if c.reqId == k then [c] else []
  {
    if checks == [] {
      assert ([] + [c])[1..] == [];
    } else {
      ChecksAppend(checks[1..], c, k);
      assert (checks + [c])[1..] == checks[1..] + [c];
    }
  }

  ghost predicate Grouped(order: seq<Id>, groups: map<Id, seq<Check>>, checks: seq<Check>) {
    && order == CheckedIds(checks)
    && (forall k :: k in groups <==> k in order)
    && (forall k :: k in groups ==> groups[k] == ChecksOf(checks, k))
    && (forall k :: k !in groups ==> ChecksOf(checks, k) == [])
  }

  lemma GroupStep(order: seq<Id>, groups: map<Id, seq<Check>>, checks: seq<Check>, c: Check)
    requires Grouped(order, groups, checks)
    ensures var k := c.reqId;
      var seen := if k in groups then groups[k] else [];
      Grouped(if k in groups then order else order + [k], groups[k := seen + [c]], checks + [c])
  {
    var more := checks + [c];
    forall k ensures k != c.reqId ==> ChecksOf(more, k) == ChecksOf(checks, k) {
      ChecksAppend(checks, c, k);
    }
    ChecksAppend(checks, c, c.reqId);
    assert more[..|more| - 1] == checks && more[|more| - 1] == c;
  }

  lemma NothingGrouped()
    ensures Grouped([], map[], [])
  {
  }

  lemma GroupedFacts(order: seq<Id>, groups: map<Id, seq<Check>>, checks: seq<Check>)
    requires Grouped(order, groups, checks)
    ensures order == CheckedIds(checks)
    ensures forall k :: k in order ==> k in groups && groups[k] == ChecksOf(checks, k)
  {
  }

  // The checks grouped by requirement, as a map in insertion order.
  method GroupChecks(checks: seq<Check>) returns (order: seq<Id>, groups: map<Id, seq<Check>>)
    ensures order == CheckedIds(checks)
    ensures forall k :: k in order ==> k in groups && groups[k] == ChecksOf(checks, k)
  {
    order, groups := [], map[];
    ghost var done: seq<Check> := [];
    NothingGrouped();
    for i := 0 to |checks|
      invariant done == checks[..i] && Grouped(order, groups, done)
    {
      order, groups := AddCheck(order, groups, done, checks[i]);
      done := done + [checks[i]];
    }
    GroupedFacts(order, groups, done);
    assert done == checks;
  }

  method AddCheck(order0: seq<Id>, groups0: map<Id, seq<Check>>, ghost before: seq<Check>, c: Check)
    returns (order: seq<Id>, groups: map<Id, seq<Check>>)
    requires Grouped(order0, groups0, before)
    ensures Grouped(order, groups, before + [c])
  {
    GroupStep(order0, groups0, before, c);
    order := order0;
    var seen := [];
    if c.reqId in groups0 {
      seen := groups0[c.reqId];
    } else {
      order := order + [c.reqId];
    }
    groups := groups0[c.reqId := seen + [c]];
  }

  lemma FailedStep(passing: seq<Check> -> bool, checks: seq<Check>, ids: seq<Id>, i: nat)
    requires i < |ids|
    ensures FailedIds(passing, checks, ids[i..]) ==
      (if passing(ChecksOf(checks, ids[i])) then [] else [ids[i]]) + FailedIds(passing, checks, ids[i + 1..])
  {
    assert ids[i..][1..] == ids[i + 1..];
  }

  method CheckFailures(checks: seq<Check>, passing: seq<Check> -> bool) returns (failed: seq<Id>)
    ensures failed == FailedIds(passing, checks, CheckedIds(checks))
  {
    var order, groups := GroupChecks(checks);
    failed := [];
    for i := 0 to |order|
      invariant failed + FailedIds(passing, checks, order[i..]) == FailedIds(passing, checks, order)
    {
      FailedStep(passing, checks, order, i);
      assert order[i] in order && groups[order[i]] == ChecksOf(checks, order[i]);
      if !passing(groups[order[i]]) {
        failed := failed + [order[i]];
      }
    }
    assert order[|order|..] == [];
  }

  method EvaluateCompletionGate(t: Task, message: Message, passing: seq<Check> -> bool) returns (gate: Gate)
    ensures gate == GateOf(t, message, passing)
    ensures gate.AllDone? <==> message.Claim? && Complete(t, passing)
  {
    GateExact(t, message, passing);
    if message.Continue? {
      return AutoApprove;
    }
    if message.Other? {
      return NotClaimed;
    }
    var blocking := Blocking(Unknowns(t));
    if |blocking| > 0 {
      return Blocked(false, blocking);
    }
    var critical := Critical(Assumptions(t));
    if |critical| > 0 {
      return Blocked(false, critical);
    }
    var pending := OutstandingIds(t.requirements);
    if |pending| > 0 {
      return Blocked(false, pending);
    }
    if exists c :: c in t.criteria && Failing(c) {
      return Blocked(false, []);
    }
    if !IsApproved(t) {
      return Blocked(false, []);
    }
    var unverified := UnverifiedIds(t.requirements);
    if |unverified| > 0 {
      return Blocked(true, unverified);
    }
    var failures := CheckFailures(Checks(t), passing);
    if |failures| > 0 {
      return Blocked(true, failures);
    }
    return AllDone;
  }

  // The contract's questions with those before i answered.
  function PartAnswered(us: seq<Unknown>, i: nat, text: string): seq<Unknown>
    requires i <= |us|
  {
    AnswerAll(us[..i], text) + us[i..]
  }

  lemma AnswerStep(us: seq<Unknown>, i: nat, text: string)
    requires i < |us|
    ensures |PartAnswered(us, i, text)| == |us|
    ensures PartAnswered(us, i + 1, text) ==
      if us[i].blocking then PartAnswered(us, i, text)[i := Answered(us[i], text)] else PartAnswered(us, i, text)
  {
    assert us[..i + 1] == us[..i] + [us[i]];
    AnswerAppend(us[..i], us[i], text);
  }

  lemma ResolveStep(us: seq<Unknown>, assumptions: seq<Assumption>, i: nat)
    requires i < |us|
    ensures ResolveAll(us[i..], assumptions) ==
      ResolveAll(us[i + 1..], if us[i].blocking then ResolveIn(assumptions, About(us[i])) else assumptions)
  {
    assert us[i..][1..] == us[i + 1..];
  }

  lemma {:induction false} AnswerAppend(us: seq<Unknown>, u: Unknown, text: string)
    ensures AnswerAll(us + [u], text) == AnswerAll(us, text) + [if u.blocking then Answered(u, text) else u]
    ensures |AnswerAll(us, text)| == |us|
  {
    if us == [] {
      assert ([] + [u])[1..] == [] && AnswerAll([], text) == [];
    } else {
      AnswerAppend(us[1..], u, text);
      assert (us + [u])[1..] == us[1..] + [u];
    }
  }

  // Answers every blocking question of a contract in turn, resolving the assumption each one asks about.
  method AnswerEach(contract: Contract, text: string) returns (r: Contract)
    ensures r == contract.(unknowns := AnswerAll(contract.unknowns, text),
      assumptions := ResolveAll(contract.unknowns, contract.assumptions))
  {
    var us, assumptions := contract.unknowns, contract.assumptions;
    var out := us;
    assert us[..0] == [] && us[0..] == us;
    for i := 0 to |us|
      invariant out == PartAnswered(us, i, text)
      invariant ResolveAll(us[i..], assumptions) == ResolveAll(us, contract.assumptions)
    {
      AnswerStep(us, i, text);
      ResolveStep(us, assumptions, i);
      if us[i].blocking {
        out := out[i := Answered(us[i], text)];
        assumptions := ResolveIn(assumptions, About(us[i]));
      }
    }
    assert us[..|us|] == us && us[|us|..] == [];
    r := contract.(unknowns := out, assumptions := assumptions);
  }

  lemma GateStored(tasks: Tasks, id: Id, message: Message, passing: seq<Check> -> bool)
    requires id in tasks
    ensures var t := tasks[id];
      Stored(tasks, id, GateMessage(message, passing)) == tasks[id := MessagePhase(t, GateOf(t, message, passing))]
  {
  }

  // The assumptions with those before i raised.
  function PartRaised(s: seq<Assumption>, i: nat, material: string -> bool): seq<Assumption>
    requires i <= |s|
  {
    RaiseAll(s[..i], material) + s[i..]
  }

  lemma RaiseStep(s: seq<Assumption>, i: nat, material: string -> bool)
    requires i < |s|
    ensures |PartRaised(s, i, material)| == |s| && PartRaised(s, i, material)[i] == s[i]
    ensures PartRaised(s, i + 1, material) == PartRaised(s, i, material)[i := Raised(s[i], material)]
  {
  }

  lemma CoverStep(s: seq<Assumption>, us: seq<Unknown>, i: nat, material: string -> bool)
    requires i < |s|
    ensures CoverAll(s[i..], us, material) ==
      CoverAll(s[i + 1..], if Rises(s[i], material) then Covered(us, s[i].id) else us, material)
  {
    assert s[i..][1..] == s[i + 1..];
  }

  method AnswerIn(contract: Contract, questionId: Id, text: string) returns (r: Contract)
    requires FindBy(UnknownId(), contract.unknowns, questionId).Some?
    ensures r == AnswerOne(contract, questionId, text)
  {
    var u := FindBy(UnknownId(), contract.unknowns, questionId).value;
    r := contract.(unknowns := SetBy(UnknownId(), contract.unknowns, questionId, Answered(u, text)));
    r := r.(assumptions := ResolveIn(r.assumptions, About(u)));
  }

  // Raises the assumptions that a message makes material one by one and covers each with a question.
  method RaiseEach(contract: Contract, material: string -> bool) returns (r: Contract, changed: bool)
    ensures changed <==> exists a :: a in contract.assumptions && Rises(a, material)
    ensures r == contract.(assumptions := RaiseAll(contract.assumptions, material),
      unknowns := CoverAll(contract.assumptions, contract.unknowns, material))
  {
    var was := contract.assumptions;
    var s, us := was, contract.unknowns;
    changed := false;
    assert was[0..] == was;
    for i := 0 to |was|
      invariant |s| == |was| && s == PartRaised(was, i, material)
      invariant CoverAll(was[i..], us, material) == CoverAll(was, contract.unknowns, material)
      invariant changed <==> SomeRises(was[..i], material)
    {
      RaiseStep(was, i, material);
      CoverStep(was, us, i, material);
      RisesStep(was, i, material);
      if Rises(s[i], material) {
        us := Covered(us, s[i].id);
        s := s[i := Raised(s[i], material)];
        changed := true;
      }
    }
    assert was[..|was|] == was && was[|was|..] == [];
    r := contract.(assumptions := s, unknowns := us);
  }

  predicate SomeRises(s: seq<Assumption>, material: string -> bool) {
    exists a :: a in s && Rises(a, material)
  }

  lemma RisesStep(s: seq<Assumption>, i: nat, material: string -> bool)
    requires i < |s|
    ensures SomeRises(s[..i + 1], material) <==> SomeRises(s[..i], material) || Rises(s[i], material)
  {
    assert s[..i + 1] == s[..i] + [s[i]];
  }

  lemma {:induction false} EscalationStored(t: Task, material: string -> bool)
    requires t.contract.Some? && SomeRises(t.contract.value.assumptions, material)
    ensures var k := t.contract.value;
      Try(t, Escalate(material)) == Some(t.(contract := Some(k.(assumptions := RaiseAll(k.assumptions, material),
                                                              unknowns := CoverAll(k.assumptions, k.unknowns, material)))))
    ensures IsApproved(t) ==> IsApproved(Apply(t, Escalate(material))) && !Clear(Apply(t, Escalate(material)))
  {
    if IsApproved(t) {
      EscalationBlocks(t, Escalate(material));
    }
  }

  lemma {:induction false} NoneLeft(us: seq<Unknown>, text: string)
    ensures Blocking(AnswerAll(us, text)) == []
  {
    if us != [] {
      NoneLeft(us[1..], text);
      var all := AnswerAll(us, text);
      assert all[1..] == AnswerAll(us[1..], text);
    }
  }

  predicate AnsweredIn(us: seq<Unknown>, id: Id, text: string) {
    var u := FindBy(UnknownId(), us, id);
    u.Some? && !u.value.blocking && u.value.answer == text
  }

  predicate SettledIn(s: seq<Assumption>, id: Id) {
    var a := FindBy(AssumptionId(), s, id);
    a.Some? && !Unresolved(a.value)
  }

  lemma {:induction false} AnswerStored(t: Task, id: Id, answer: Option<string>)
    requires FindBy(UnknownId(), Unknowns(t), id).Some? && Trim(answer) != ""
    ensures Try(t, Answer(id, answer)) ==
      Some(t.(contract := Some(AnswerOne(t.contract.value, id, Trim(answer))), phase := PROPOSED))
    ensures AnsweredIn(AnswerOne(t.contract.value, id, Trim(answer)).unknowns, id, Trim(answer))
  {
    FoundSet(UnknownId(), Unknowns(t), id, Answered(FindBy(UnknownId(), Unknowns(t), id).value, Trim(answer)));
  }

  // Every done or verified requirement of every stored task has evidence.
  ghost predicate EvidenceKept(tasks: Tasks) {
    forall k :: k in tasks ==> AllSupported(tasks[k])
  }

  lemma StoredSupported(tasks: Tasks, id: Id, c: Command)
    requires EvidenceKept(tasks)
    ensures id in tasks ==> (EvidenceKept(Stored(tasks, id, c)) <==> !Unfounded(tasks[id], c))
    ensures id !in tasks ==> EvidenceKept(Stored(tasks, id, c))
  {
    if id in tasks {
      SupportedExactly(tasks[id], c);
      var after := Stored(tasks, id, c);
      assert after[id] == Apply(tasks[id], c);
      assert forall k :: k in tasks && k != id ==> after[k] == tasks[k];
    }
  }

  // The requirement as stored under a task.
  function RequirementIn(tasks: Tasks, id: Id, reqId: Id): Option<Requirement> {
    if id in tasks then FindBy(RequirementId(), tasks[id].requirements, reqId) else None
  }

  // A stored requirement that was not verified is verified afterwards exactly when the mark asks for it and may have it.
  ghost predicate VerifiedOnlySo(before: Tasks, after: Tasks, id: Id, reqId: Id, status: Progress,
    evidence: Option<string>, verify: seq<Check> -> Option<seq<string>>)
  {
    var r, s := RequirementIn(before, id, reqId), RequirementIn(after, id, reqId);
    r.Some? && !r.value.status.Verified? ==>
      var checks := ChecksOf(Checks(before[id]), reqId);
      && s.Some?
      && (s.value.status.Verified? <==> status.Verified? && MayVerify(r.value, evidence, checks, verify))
      && (s.value.status.Verified? ==>
            s.value.evidence == r.value.evidence + (if checks == [] then [] else verify(checks).value) + [Trim(evidence)])
  }

  lemma {:induction false} MarkVerified(tasks: Tasks, id: Id, reqId: Id, status: Progress,
      evidence: Option<string>, verify: seq<Check> -> Option<seq<string>>)
    ensures VerifiedOnlySo(tasks, Stored(tasks, id, Mark(reqId, status, evidence, verify)), id, reqId, status, evidence,
      verify)
  {
    var r := RequirementIn(tasks, id, reqId);
    if r.Some? && !r.value.status.Verified? {
      var c := Mark(reqId, status, evidence, verify);
      MarkVerifies(tasks[id], c, r.value);
      assert Stored(tasks, id, c)[id] == Apply(tasks[id], c);
    }
  }

  // ---- the store ----

  class TaskStore {
    var tasks: Tasks

    constructor (tasks: Tasks)
      ensures this.tasks == tasks
    {
      this.tasks := tasks;
    }

    method ApproveContract(id: Id) returns (ok: bool)
      modifies this
      ensures ok <==> Accepted(old(tasks), id, Approve)
      ensures ok <==> id in old(tasks) && Clear(old(tasks)[id])
      ensures tasks == Stored(old(tasks), id, Approve)
    {
      if id in tasks {
        ApproveExactly(tasks[id]);
      }
      if id !in tasks {
        return false;
      }
      var t := tasks[id];
      if |Blocking(Unknowns(t))| > 0 {
        return false;
      }
      if |Critical(Assumptions(t))| > 0 {
        return false;
      }
      t := t.(contract := Some(ContractOrNew(t).(status := Approved)));
      if !t.phase.DONE? {
        t := t.(phase := IMPLEMENTING);
      }
      tasks := tasks[id := t];
      ok := true;
    }

    method RejectContract(id: Id) returns (ok: bool)
      modifies this
      ensures ok <==> Accepted(old(tasks), id, Reject)
      ensures tasks == Stored(old(tasks), id, Reject)
    {
      if id !in tasks {
        return false;
      }
      var t := tasks[id];
      tasks := tasks[id := t.(contract := Some(ContractOrNew(t).(status := Rejected)), phase := WAITING)];
      ok := true;
    }

    method EditContract(id: Id, patch: Patch) returns (ok: bool)
      modifies this
      ensures ok <==> Accepted(old(tasks), id, Edit(patch))
      ensures tasks == Stored(old(tasks), id, Edit(patch))
    {
      if id !in tasks {
        return false;
      }
      var t := tasks[id];
      var contract := ContractOrNew(t);
      if patch.requirements.Some? {
        contract := contract.(requirements := patch.requirements.value);
        t := t.(requirements := Fresh(patch.requirements.value));
      }
      contract := contract.(status := Proposed);
      tasks := tasks[id := t.(contract := Some(contract), phase := PROPOSED)];
      ok := true;
    }

    method MarkRequirement(id: Id, reqId: Id, status: Progress, evidence: Option<string>,
        verify: seq<Check> -> Option<seq<string>>) returns (ok: bool)
      modifies this
      ensures ok <==> Accepted(old(tasks), id, Mark(reqId, status, evidence, verify))
      ensures tasks == Stored(old(tasks), id, Mark(reqId, status, evidence, verify))
      ensures EvidenceKept(old(tasks)) ==> EvidenceKept(tasks)
      ensures VerifiedOnlySo(old(tasks), tasks, id, reqId, status, evidence, verify)
    {
      MarkVerified(tasks, id, reqId, status, evidence, verify);
      if EvidenceKept(tasks) {
        StoredSupported(tasks, id, Mark(reqId, status, evidence, verify));
      }
      if id !in tasks {
        return false;
      }
      var t := tasks[id];
      var found := FindBy(RequirementId(), t.requirements, reqId);
      if found.None? {
        return false;
      }
      var req, text := found.value, Trim(evidence);
      if (status.Done? || status.Verified?) && text == "" {
        return false;
      }
      if status.Verified? && !req.status.Done? {
        return false;
      }
      var checks := ChecksOf(Checks(t), reqId);
      if status.Verified? && |checks| > 0 {
        var verdict := verify(checks);
        if verdict.None? {
          return false;
        }
        req := req.(evidence := req.evidence + verdict.value);
      }
      if status.Done? && req.status.Verified? && |checks| > 0 {
        return false;
      }
      req := req.(status := status);
      if status.Done? || status.Verified? {
        req := req.(evidence := req.evidence + [text]);
      }
      if status.Pending? {
        req := req.(evidence := []);
      }
      tasks := tasks[id := t.(requirements := SetBy(RequirementId(), t.requirements, reqId, req))];
      ok := true;
    }

    method AnswerQuestion(id: Id, questionId: Id, answer: Option<string>) returns (ok: bool)
      modifies this
      ensures ok <==> Accepted(old(tasks), id, Answer(questionId, answer))
      ensures tasks == Stored(old(tasks), id, Answer(questionId, answer))
      ensures ok ==> AnsweredIn(Unknowns(tasks[id]), questionId, Trim(answer))
    {
      if id !in tasks {
        return false;
      }
      var t := tasks[id];
      var u := FindBy(UnknownId(), Unknowns(t), questionId);
      if u.None? || Trim(answer) == "" {
        return false;
      }
      var contract := AnswerIn(t.contract.value, questionId, Trim(answer));
      AnswerStored(t, questionId, answer);
      tasks := tasks[id := t.(contract := Some(contract), phase := ANSWERED)];
      tasks := tasks[id := t.(contract := Some(contract), phase := PROPOSED)];
      ok := true;
    }

    method AnswerFromMessage(id: Id, text: Option<string>) returns (ok: bool)
      modifies this
      ensures ok <==> Accepted(old(tasks), id, AnswerMessage(text))
      ensures tasks == Stored(old(tasks), id, AnswerMessage(text))
      ensures ok ==> Blocking(Unknowns(tasks[id])) == []
    {
      if id !in tasks {
        return false;
      }
      var t := tasks[id];
      if |Blocking(Unknowns(t))| == 0 {
        return false;
      }
      var answer := Trim(text);
      if answer == "" {
        return false;
      }
      var contract := AnswerEach(t.contract.value, answer);
      NoneLeft(t.contract.value.unknowns, answer);
      tasks := tasks[id := t.(contract := Some(contract), phase := PROPOSED)];
      ok := true;
    }

    method ResolveAssumption(id: Id, assumptionId: Id, proof: Option<string>) returns (ok: bool)
      modifies this
      ensures ok <==> Accepted(old(tasks), id, Resolve(assumptionId, proof))
      ensures tasks == Stored(old(tasks), id, Resolve(assumptionId, proof))
      ensures ok ==> SettledIn(Assumptions(tasks[id]), assumptionId)
    {
      if id !in tasks {
        return false;
      }
      var t := tasks[id];
      var a := FindBy(AssumptionId(), Assumptions(t), assumptionId);
      if a.None? || Trim(proof) == "" {
        return false;
      }
      var contract := t.contract.value;
      contract := contract.(assumptions := SetBy(AssumptionId(), contract.assumptions, assumptionId, Settle(a.value)));
      FoundSet(AssumptionId(), t.contract.value.assumptions, assumptionId, Settle(a.value));
      contract := contract.(unknowns := AnswerAbout(contract.unknowns, assumptionId, Trim(proof)));
      t := t.(contract := Some(contract));
      if t.phase.ASKING? && |Blocking(contract.unknowns)| == 0 {
        t := t.(phase := PROPOSED);
      }
      tasks := tasks[id := t];
      ok := true;
    }

    method GateOnMessage(id: Id, message: Message, passing: seq<Check> -> bool) returns (gate: Option<Gate>)
      modifies this
      ensures gate == if id in old(tasks) then Some(GateOf(old(tasks)[id], message, passing)) else None
      ensures tasks == Stored(old(tasks), id, GateMessage(message, passing))
      ensures id in old(tasks) && !old(tasks)[id].phase.DONE? ==>
        (tasks[id].phase.DONE? <==> message.Claim? && Complete(old(tasks)[id], passing))
    {
      if id !in tasks {
        return None;
      }
      var t := tasks[id];
      var g := EvaluateCompletionGate(t, message, passing);
      GateStored(tasks, id, message, passing);
      if g.Blocked? || g.AllDone? {
        tasks := tasks[id := t.(phase := PhaseAfter(t, g))];
      }
      gate := Some(g);
    }

    method EscalateAssumptions(id: Id, material: string -> bool) returns (changed: bool)
      modifies this
      ensures changed <==> Accepted(old(tasks), id, Escalate(material))
      ensures tasks == Stored(old(tasks), id, Escalate(material))
      ensures changed && IsApproved(old(tasks)[id]) ==> IsApproved(tasks[id]) && !Clear(tasks[id])
    {
      if id !in tasks || tasks[id].contract.None? {
        return false;
      }
      var t := tasks[id];
      var contract;
      contract, changed := RaiseEach(t.contract.value, material);
      if changed {
        EscalationStored(t, material);
        tasks := tasks[id := t.(contract := Some(contract))];
      }
    }

    method MarkRequirementVerified(id: Id, requirementId: Id, evidenceId: Option<string>) returns (ok: bool)
      modifies this
      ensures ok <==> Accepted(old(tasks), id, VerifyByEvidence(requirementId, evidenceId))
      ensures tasks == Stored(old(tasks), id, VerifyByEvidence(requirementId, evidenceId))
      ensures EvidenceKept(old(tasks)) && id in old(tasks) ==>
        (EvidenceKept(tasks) <==> !Unfounded(old(tasks)[id], VerifyByEvidence(requirementId, evidenceId)))
    {
      if EvidenceKept(tasks) {
        StoredSupported(tasks, id, VerifyByEvidence(requirementId, evidenceId));
      }
      if requirementId == "" || id !in tasks {
        return false;
      }
      var t := tasks[id];
      var found := FindBy(RequirementId(), t.requirements, requirementId);
      if found.None? {
        return false;
      }
      var r := found.value.(status := Verified);
      if evidenceId.Some? && evidenceId.value != "" {
        if evidenceId.value !in r.evidence {
          r := r.(evidence := r.evidence + [evidenceId.value]);
        }
      }
      tasks := tasks[id := t.(requirements := SetBy(RequirementId(), t.requirements, requirementId, r))];
      ok := true;
    }
  }
}
