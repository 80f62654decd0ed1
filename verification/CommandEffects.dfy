// What each command on a task contract leaves behind, field by field, and which ids a closed gate lists.
module CommandEffects {
  import opened Common
  import opened ContractGate

  // ---- the first record with an id ----

  predicate FirstWith<T>(key: T -> Id, s: seq<T>, k: Id, i: nat) {
    i < |s| && key(s[i]) == k && forall j :: 0 <= j < i ==> key(s[j]) != k
  }

  lemma {:induction false} FirstTail<T>(key: T -> Id, s: seq<T>, k: Id, i: nat)
    requires 0 < i < |s| && key(s[0]) != k
    ensures FirstWith(key, s, k, i) <==> FirstWith(key, s[1..], k, i - 1)
  {
    var tail := s[1..];
    assert forall j :: 0 < j < |s| ==> tail[j - 1] == s[j];
  }

  // The record found is the first with the id, and it alone is replaced.
  lemma {:induction false} FirstReplaced<T>(key: T -> Id, s: seq<T>, k: Id, x: T, i: nat)
    requires i < |s|
    ensures SetBy(key, s, k, x)[i] == if FirstWith(key, s, k, i) then x else s[i]
    ensures FirstWith(key, s, k, i) ==> FindBy(key, s, k) == Some(s[i])
    decreases i
  {
    if i > 0 && key(s[0]) != k {
      FirstTail(key, s, k, i);
      FirstReplaced(key, s[1..], k, x, i - 1);
    }
  }

  // One record, the first with the id, is replaced by what `as` makes of it.
  ghost predicate OneReplaced<T>(key: T -> Id, before: seq<T>, after: seq<T>, k: Id, become: T -> T) {
    && |after| == |before|
    && forall i :: 0 <= i < |before| ==> after[i] == if FirstWith(key, before, k, i) then become(before[i]) else before[i]
  }

  lemma {:induction false} SetReplaces<T>(key: T -> Id, s: seq<T>, k: Id, become: T -> T)
    requires FindBy(key, s, k).Some?
    ensures OneReplaced(key, s, SetBy(key, s, k, become(FindBy(key, s, k).value)), k, become)
  {
    forall i | 0 <= i < |s|
      ensures SetBy(key, s, k, become(FindBy(key, s, k).value))[i] == if FirstWith(key, s, k, i) then become(s[i]) else s[i]
    {
      FirstReplaced(key, s, k, become(FindBy(key, s, k).value), i);
    }
  }

  // ---- approving, rejecting, editing ----

  // Everything but the status of the contract is as before; a task without a contract gets an empty one.
  predicate OnlyStatus(before: Task, after: Task, status: Approval) {
    && after.contract.Some? && after.contract.value.status == status
    && (before.contract.Some? ==> after.contract.value == before.contract.value.(status := status))
    && (before.contract.None? ==> after.contract.value == Contract(status, [], [], [], []))
    && after.requirements == before.requirements && after.criteria == before.criteria
  }

  lemma {:induction false} ApproveEffect(t: Task)
    ensures Clear(t) ==>
      && OnlyStatus(t, Apply(t, Approve), Approved)
      && Apply(t, Approve).phase == if t.phase.DONE? then DONE else IMPLEMENTING
    ensures !Clear(t) ==> Apply(t, Approve) == t
  {
    ApproveExactly(t);
  }

  lemma {:induction false} RejectEffect(t: Task)
    ensures OnlyStatus(t, Apply(t, Reject), Rejected) && Apply(t, Reject).phase.WAITING?
  {
  }

  lemma {:induction false} EditEffect(t: Task, patch: Patch)
    ensures var after := Apply(t, Edit(patch));
      && after.phase.PROPOSED?
      && (patch.requirements.None? ==> OnlyStatus(t, after, Proposed))
      && (patch.requirements.Some? ==>
            var titles := patch.requirements.value;
            && after.contract.Some? && after.contract.value.requirements == titles
            && OnlyStatus(t.(contract := Some(ContractOrNew(t).(requirements := titles))),
                          after.(requirements := t.requirements), Proposed)
            && |after.requirements| == |titles|
            && forall i :: 0 <= i < |titles| ==>
                 after.requirements[i] == Requirement("req-" + Decimal(i + 1), titles[i], Pending, []))
  {
  }

  // ---- marking ----

  // Why a mark is refused.
  predicate Refused(t: Task, r: Requirement, status: Progress, evidence: Option<string>, checks: seq<Check>,
    verify: seq<Check> -> Option<seq<string>>)
  {
    || ((status.Done? || status.Verified?) && (evidence.None? || AllBlank(evidence.value)))
    || (status.Verified? && !r.status.Done?)
    || (status.Verified? && checks != [] && verify(checks).None?)
    || (status.Done? && r.status.Verified? && checks != [])
  }

  // The evidence a mark leaves.
  ghost predicate EvidenceAfter(r: Requirement, after: Requirement, status: Progress, evidence: Option<string>,
    checks: seq<Check>, verify: seq<Check> -> Option<seq<string>>)
    requires status.Verified? && checks != [] ==> verify(checks).Some?
  {
    && (status.Pending? ==> after.evidence == [])
    && (status.OtherProgress? ==> after.evidence == r.evidence)
    && (status.Done? ==> after.evidence == r.evidence + [Trim(evidence)])
    && (status.Verified? ==>
          after.evidence == r.evidence + (if checks == [] then [] else verify(checks).value) + [Trim(evidence)])
  }

  lemma {:induction false} MarkedIs(t: Task, r: Requirement, status: Progress, evidence: Option<string>,
      verify: seq<Check> -> Option<seq<string>>)
    ensures var checks := ChecksOf(Checks(t), r.id);
      var x := Marked(t, r, status, evidence, verify);
      && (x.None? <==> Refused(t, r, status, evidence, checks, verify))
      && (x.Some? ==>
            && x.value.id == r.id && x.value.title == r.title && x.value.status == status
            && EvidenceAfter(r, x.value, status, evidence, checks, verify))
  {
    NotBlank(evidence);
  }

  lemma {:induction false} MarkEffect(t: Task, c: Command)
    requires c.Mark?
    ensures var r := FindBy(RequirementId(), t.requirements, c.reqId);
      var checks := ChecksOf(Checks(t), c.reqId);
      var after := Apply(t, c);
      && (r.None? || Refused(t, r.value, c.status, c.evidence, checks, c.verify) <==> Try(t, c).None?)
      && (Try(t, c).Some? ==>
            && after.phase == t.phase && after.contract == t.contract && after.criteria == t.criteria
            && exists x ::
                 && OneReplaced(RequirementId(), t.requirements, after.requirements, c.reqId, (r: Requirement) => x)
                 && x.id == c.reqId && x.title == r.value.title && x.status == c.status
                 && EvidenceAfter(r.value, x, c.status, c.evidence, checks, c.verify))
  {
    var r := FindBy(RequirementId(), t.requirements, c.reqId);
    if r.Some? {
      MarkedIs(t, r.value, c.status, c.evidence, c.verify);
      var marked := Marked(t, r.value, c.status, c.evidence, c.verify);
      if marked.Some? {
        var x := marked.value;
        SetReplaces(RequirementId(), t.requirements, c.reqId, (r: Requirement) => x);
      }
    }
  }

  function VerifiedAs(evidenceId: Option<string>): Requirement -> Requirement {
    (r: Requirement) =>
      r.(status := Verified,
         evidence := if evidenceId.None? || evidenceId == Some("") || evidenceId.value in r.evidence then r.evidence
                     else r.evidence + [evidenceId.value])
  }

  // Verification by an evidence id: the requirement is verified, and the id is added once if there is one.
  lemma {:induction false} VerifyEffect(t: Task, id: Id, evidenceId: Option<string>)
    ensures var after := Apply(t, VerifyByEvidence(id, evidenceId));
      if id == "" || FindBy(RequirementId(), t.requirements, id).None? then after == t
      else
        && after.(requirements := t.requirements) == t
        && OneReplaced(RequirementId(), t.requirements, after.requirements, id, VerifiedAs(evidenceId))
  {
    var r := FindBy(RequirementId(), t.requirements, id);
    if id != "" && r.Some? {
      assert VerifiedBy(r.value, evidenceId) == VerifiedAs(evidenceId)(r.value);
      SetReplaces(RequirementId(), t.requirements, id, VerifiedAs(evidenceId));
    }
  }

  // ---- answering ----

  function AnsweredWith(text: string): Unknown -> Unknown {
    (u: Unknown) => u.(blocking := false, answer := text)
  }

  function SettledOne(): Assumption -> Assumption {
    (a: Assumption) => a.(classification := Settled, standing := Resolved)
  }

  // The first assumption with the id is settled; no id, or an empty one, settles none.
  ghost predicate SettledFor(before: seq<Assumption>, after: seq<Assumption>, id: Option<Id>) {
    if id.None? || id.value == "" then after == before
    else OneReplaced(AssumptionId(), before, after, id.value, SettledOne())
  }

  lemma {:induction false} ResolveInSettles(s: seq<Assumption>, id: Option<Id>)
    requires id != Some("")
    ensures SettledFor(s, ResolveIn(s, id), id)
  {
    if id.Some? {
      var a := FindBy(AssumptionId(), s, id.value);
      if a.Some? {
        SetReplaces(AssumptionId(), s, id.value, SettledOne());
      } else {
        assert forall x :: x in s ==> AssumptionId()(x) != id.value;
      }
    }
  }

  // Everything but questions, assumptions and the phase is as before.
  predicate OnlyQuestions(before: Task, after: Task) {
    && before.contract.Some? && after.contract.Some?
    && after.contract.value.(unknowns := [], assumptions := []) == before.contract.value.(unknowns := [], assumptions := [])
    && after.requirements == before.requirements && after.criteria == before.criteria
  }

  // An answer is refused exactly when the question does not exist or the answer is blank. The question it answers
  // blocks no more, its assumption is settled, and the contract is proposed again.
  lemma {:induction false} AnswerEffect(t: Task, id: Id, answer: Option<string>)
    ensures var after := Apply(t, Answer(id, answer));
      var u := FindBy(UnknownId(), Unknowns(t), id);
      && (u.None? || answer.None? || AllBlank(answer.value) ==> after == t)
      && (u.Some? && answer.Some? && !AllBlank(answer.value) ==>
            && OnlyQuestions(t, after) && after.phase.PROPOSED?
            && OneReplaced(UnknownId(), Unknowns(t), Unknowns(after), id, AnsweredWith(Trim(answer)))
            && SettledFor(Assumptions(t), Assumptions(after), u.value.assumptionId))
  {
    NotBlank(answer);
    var u := FindBy(UnknownId(), Unknowns(t), id);
    if u.Some? && Trim(answer) != "" {
      SetReplaces(UnknownId(), Unknowns(t), id, AnsweredWith(Trim(answer)));
      ResolveInSettles(Assumptions(t), About(u.value));
    }
  }

  // Some blocking question asks about the assumption.
  predicate Asked(us: seq<Unknown>, id: Id) {
    exists u :: u in us && u.blocking && u.assumptionId == Some(id)
  }

  lemma {:induction false} AnswerAllEach(us: seq<Unknown>, text: string)
    ensures |AnswerAll(us, text)| == |us|
    ensures forall i :: 0 <= i < |us| ==>
      AnswerAll(us, text)[i] == if us[i].blocking then us[i].(blocking := false, answer := text) else us[i]
  {
    if us != [] { AnswerAllEach(us[1..], text); }
  }

  // The first assumption with an id that some blocking question asks about is settled, every other is as before.
  ghost predicate SettledAsAsked(us: seq<Unknown>, before: seq<Assumption>, after: seq<Assumption>) {
    && |after| == |before|
    && forall i :: 0 <= i < |before| ==>
         after[i] == if FirstWith(AssumptionId(), before, before[i].id, i) && before[i].id != "" && Asked(us, before[i].id)
                     then before[i].(classification := Settled, standing := Resolved) else before[i]
  }

  lemma {:induction false} NoneAsked(s: seq<Assumption>)
    ensures SettledAsAsked([], s, s)
  {
  }

  lemma {:induction false} AskedStep(us: seq<Unknown>, s: seq<Assumption>, after: seq<Assumption>)
    requires us != []
    requires SettledAsAsked(us[1..], if us[0].blocking then ResolveIn(s, About(us[0])) else s, after)
    ensures SettledAsAsked(us, s, after)
  {
    var id := if us[0].blocking then About(us[0]) else None;
    var mid := ResolveIn(s, id);
    ResolveInSettles(s, id);
    forall i | 0 <= i < |s|
      ensures after[i] == if FirstWith(AssumptionId(), s, s[i].id, i) && s[i].id != "" && Asked(us, s[i].id)
                          then s[i].(classification := Settled, standing := Resolved) else s[i]
    {
      assert forall j :: 0 <= j < |s| ==> mid[j].id == s[j].id;
      assert FirstWith(AssumptionId(), mid, mid[i].id, i) <==> FirstWith(AssumptionId(), s, s[i].id, i);
      assert Asked(us, s[i].id) <==> Asked(us[1..], s[i].id) || (us[0].blocking && us[0].assumptionId == Some(s[i].id));
    }
  }

  lemma {:induction false} ResolveAllSettles(us: seq<Unknown>, s: seq<Assumption>)
    ensures SettledAsAsked(us, s, ResolveAll(us, s))
    decreases |us|
  {
    if us == [] {
      NoneAsked(s);
    } else {
      ResolveAllSettles(us[1..], if us[0].blocking then ResolveIn(s, About(us[0])) else s);
      AskedStep(us, s, ResolveAll(us, s));
    }
  }

  // A message is refused as an answer exactly when nothing blocks or it is blank. It answers every blocking question
  // and settles what they ask about.
  lemma {:induction false} AnswerMessageEffect(t: Task, text: Option<string>)
    ensures var after := Apply(t, AnswerMessage(text));
      var us := Unknowns(t);
      && ((forall u :: u in us ==> !u.blocking) || text.None? || AllBlank(text.value) ==> after == t)
      && ((exists u :: u in us && u.blocking) && text.Some? && !AllBlank(text.value) ==>
            && OnlyQuestions(t, after) && after.phase.PROPOSED? && |Unknowns(after)| == |us|
            && (forall i :: 0 <= i < |us| ==>
                  Unknowns(after)[i] == if us[i].blocking then us[i].(blocking := false, answer := Trim(text)) else us[i])
            && SettledAsAsked(us, Assumptions(t), Assumptions(after)))
  {
    NotBlank(text);
    NoneBlocking(Unknowns(t));
    AnswerAllEach(Unknowns(t), Trim(text));
    ResolveAllSettles(Unknowns(t), Assumptions(t));
  }

  // ---- resolving ----

  predicate AsksAbout(u: Unknown, id: Id) {
    u.blocking && u.assumptionId == Some(id)
  }

  predicate FirstAsking(us: seq<Unknown>, id: Id, i: nat) {
    i < |us| && AsksAbout(us[i], id) && forall j :: 0 <= j < i ==> !AsksAbout(us[j], id)
  }

  // The first blocking question about the assumption is answered, every other is as before.
  ghost predicate FirstAnswered(before: seq<Unknown>, after: seq<Unknown>, id: Id, text: string) {
    && |after| == |before|
    && forall i :: 0 <= i < |before| ==>
         after[i] == if FirstAsking(before, id, i) then before[i].(blocking := false, answer := text) else before[i]
  }

  lemma {:induction false} AskingTail(us: seq<Unknown>, id: Id, i: nat)
    requires 0 < i < |us| && !AsksAbout(us[0], id)
    ensures FirstAsking(us, id, i) <==> FirstAsking(us[1..], id, i - 1)
  {
    var tail := us[1..];
    assert forall j :: 0 < j < |us| ==> tail[j - 1] == us[j];
  }

  lemma {:induction false} AnswerAboutAt(us: seq<Unknown>, id: Id, text: string, i: nat)
    requires i < |us|
    ensures |AnswerAbout(us, id, text)| == |us|
    ensures AnswerAbout(us, id, text)[i]
        == if FirstAsking(us, id, i) then us[i].(blocking := false, answer := text) else us[i]
    decreases |us|
  {
    if !AsksAbout(us[0], id) && |us| > 1 {
      AnswerAboutAt(us[1..], id, text, if i == 0 then 0 else i - 1);
      if i > 0 { AskingTail(us, id, i); }
    }
  }

  lemma {:induction false} AnswerAboutFirst(us: seq<Unknown>, id: Id, text: string)
    ensures FirstAnswered(us, AnswerAbout(us, id, text), id, text)
  {
    if us != [] { AnswerAboutAt(us, id, text, 0); }
    forall i | 0 <= i < |us|
      ensures AnswerAbout(us, id, text)[i]
          == if FirstAsking(us, id, i) then us[i].(blocking := false, answer := text) else us[i]
    {
      AnswerAboutAt(us, id, text, i);
    }
  }

  // A resolution is refused exactly when the assumption does not exist or the proof is blank. It leaves ASKING when
  // nothing blocks any more, and no other phase.
  lemma {:induction false} ResolveEffect(t: Task, id: Id, proof: Option<string>)
    ensures var after := Apply(t, Resolve(id, proof));
      var found := FindBy(AssumptionId(), Assumptions(t), id).Some?;
      && (!found || proof.None? || AllBlank(proof.value) ==> after == t)
      && (found && proof.Some? && !AllBlank(proof.value) ==>
            && OnlyQuestions(t, after)
            && OneReplaced(AssumptionId(), Assumptions(t), Assumptions(after), id, SettledOne())
            && FirstAnswered(Unknowns(t), Unknowns(after), id, Trim(proof))
            && after.phase == if t.phase.ASKING? && (forall u :: u in Unknowns(after) ==> !u.blocking) then PROPOSED
                              else t.phase)
  {
    NotBlank(proof);
    var a := FindBy(AssumptionId(), Assumptions(t), id);
    if a.Some? && Trim(proof) != "" {
      SetReplaces(AssumptionId(), Assumptions(t), id, SettledOne());
      AnswerAboutFirst(Unknowns(t), id, Trim(proof));
      NoneBlocking(AnswerAbout(Unknowns(t), id, Trim(proof)));
    }
  }

  // ---- escalating ----

  // A message makes the assumption material.
  predicate Raises(a: Assumption, material: string -> bool) {
    a.standing == Active && a.classification == NonBlocking && material(a.statement)
  }

  // Some question is about the assumption.
  predicate HasQuestion(us: seq<Unknown>, id: Id) {
    exists u :: u in us && u.assumptionId == Some(id)
  }

  // No question is lost: each keeps its place, its id, its answer and whether it blocks, and what it is about unless it
  // blocks and is about nothing.
  predicate QuestionsKept(before: seq<Unknown>, after: seq<Unknown>) {
    && |before| <= |after|
    && forall i :: 0 <= i < |before| ==>
         after[i] == before[i]
         || (before[i].blocking && (before[i].assumptionId.None? || before[i].assumptionId == Some(""))
             && after[i].assumptionId.Some? && after[i].(assumptionId := before[i].assumptionId) == before[i])
  }

  // Questions past those before are fresh: blocking, without an answer, about some assumption, numbered by their place.
  predicate QuestionsNew(before: seq<Unknown>, after: seq<Unknown>) {
    forall i :: |before| <= i < |after| ==>
      after[i].id == "U" + Decimal(i + 1) && after[i].blocking && after[i].answer == "" && after[i].assumptionId.Some?
  }

  lemma {:induction false} LinkFirstKeeps(us: seq<Unknown>, id: Id)
    requires exists u :: u in us && Unlinked(u)
    ensures QuestionsKept(us, LinkFirst(us, id)) && HasQuestion(LinkFirst(us, id), id)
  {
    var after := LinkFirst(us, id);
    if Unlinked(us[0]) {
      assert after[0].assumptionId == Some(id) && after[0] in after;
    } else {
      LinkFirstKeeps(us[1..], id);
      var u :| u in after[1..] && u.assumptionId == Some(id);
      assert u in after;
    }
  }

  lemma {:induction false} CoveredKeeps(us: seq<Unknown>, id: Id)
    ensures QuestionsKept(us, Covered(us, id)) && QuestionsNew(us, Covered(us, id)) && HasQuestion(Covered(us, id), id)
  {
    if exists u :: u in us && Unlinked(u) {
      LinkFirstKeeps(us, id);
    } else if !HasQuestion(us, id) {
      var after := Covered(us, id);
      assert after[|us|].assumptionId == Some(id) && after[|us|] in after;
    }
  }

  lemma {:induction false} StillAsked(before: seq<Unknown>, after: seq<Unknown>, id: Id)
    requires QuestionsKept(before, after) && HasQuestion(before, id) && id != ""
    ensures HasQuestion(after, id)
  {
    var u :| u in before && u.assumptionId == Some(id);
    var i :| 0 <= i < |before| && before[i] == u;
    assert after[i] in after;
  }

  lemma {:induction false} KeptStep(a: seq<Unknown>, b: seq<Unknown>, c: seq<Unknown>)
    requires QuestionsKept(a, b) && QuestionsNew(a, b) && QuestionsKept(b, c) && QuestionsNew(b, c)
    ensures QuestionsKept(a, c) && QuestionsNew(a, c)
  {
    forall i | |a| <= i < |c| ensures
      c[i].id == "U" + Decimal(i + 1) && c[i].blocking && c[i].answer == "" && c[i].assumptionId.Some?
    {
      if i < |b| { assert c[i] == b[i] || c[i].(assumptionId := b[i].assumptionId) == b[i]; }
    }
  }

  // Each assumption that rises has a question about it.
  ghost predicate RisenAsked(s: seq<Assumption>, us: seq<Unknown>, material: string -> bool) {
    forall i :: 0 <= i < |s| && Raises(s[i], material) && s[i].id != "" ==> HasQuestion(us, s[i].id)
  }

  lemma {:induction false} CoverAllKeeps(s: seq<Assumption>, us: seq<Unknown>, material: string -> bool)
    ensures QuestionsKept(us, CoverAll(s, us, material)) && QuestionsNew(us, CoverAll(s, us, material))
    ensures RisenAsked(s, CoverAll(s, us, material), material)
    decreases |s|
  {
    if s != [] {
      var mid := if Rises(s[0], material) then Covered(us, s[0].id) else us;
      var after := CoverAll(s, us, material);
      assert after == CoverAll(s[1..], mid, material);
      CoveredKeeps(us, s[0].id);
      CoverAllKeeps(s[1..], mid, material);
      KeptStep(us, mid, after);
      forall i | 0 <= i < |s| && Raises(s[i], material) && s[i].id != "" ensures HasQuestion(after, s[i].id) {
        if i == 0 {
          StillAsked(mid, after, s[0].id);
        } else {
          assert s[1..][i - 1] == s[i];
        }
      }
    }
  }

  // An escalation raises exactly the active non-blocking assumptions the message makes material; each then has a
  // question about it, no question is lost, and nothing else changes.
  lemma {:induction false} EscalateEffect(t: Task, material: string -> bool)
    ensures var after := Apply(t, Escalate(material));
      var s := Assumptions(t);
      && ((forall a :: a in s ==> !Raises(a, material)) ==> after == t)
      && ((exists a :: a in s && Raises(a, material)) ==>
            && OnlyQuestions(t, after) && after.phase == t.phase && |Assumptions(after)| == |s|
            && (forall i :: 0 <= i < |s| ==>
                  Assumptions(after)[i] == if Raises(s[i], material)
                                           then s[i].(classification := DecisionCritical, standing := Escalated) else s[i])
            && QuestionsKept(Unknowns(t), Unknowns(after)) && QuestionsNew(Unknowns(t), Unknowns(after))
            && RisenAsked(s, Unknowns(after), material))
  {
    CoverAllKeeps(Assumptions(t), Unknowns(t), material);
    if exists a :: a in Assumptions(t) && Raises(a, material) {
      assert exists a :: a in Assumptions(t) && Rises(a, material);
    }
  }

  // ---- asking and the gate ----

  // A task goes to ASKING exactly when some blocking question is not decided yet, unless it has just been answered.
  lemma {:induction false} AskEffect(t: Task, decided: set<Id>)
    ensures Apply(t, Ask(decided)) ==
      t.(phase := if !t.phase.ANSWERED? && (exists u :: u in Unknowns(t) && u.blocking && u.id !in decided)
                  then ASKING else t.phase)
  {
  }

  // Nothing is missing but verification: of a requirement, or of its checks.
  ghost predicate ReadyToVerify(t: Task) {
    && t.contract.Some? && t.contract.value.status.Approved? && Clear(t)
    && (forall c :: c in t.criteria ==> c.Pass?)
    && (forall r :: r in t.requirements ==> r.status.Verified? || (r.status.Done? && r.evidence != []))
  }

  lemma {:induction false} NoneOutstanding(s: seq<Requirement>)
    ensures OutstandingIds(s) == []
      <==> forall r :: r in s ==> r.status.Verified? || (r.status.Done? && r.evidence != [])
  {
    if s != [] {
      NoneOutstanding(s[1..]);
      assert forall r :: r in s <==> r == s[0] || r in s[1..];
    }
  }

  lemma {:induction false} VerifyingExactly(t: Task, message: Message, passing: seq<Check> -> bool)
    ensures var gate := GateOf(t, message, passing);
      gate.Blocked? && gate.verifying <==> message.Claim? && ReadyToVerify(t) && !Complete(t, passing)
  {
    GateExact(t, message, passing);
    NoneBlocking(Unknowns(t));
    NoneCritical(Assumptions(t));
    NoneOutstanding(t.requirements);
  }

  // A claim takes a complete task to DONE and one that only lacks verification to VERIFYING. Otherwise the phase stays
  // or, at the end of a session, becomes IMPLEMENTING. Nothing but the phase changes.
  lemma {:induction false} GateEffect(t: Task, message: Message, passing: seq<Check> -> bool)
    ensures Apply(t, GateMessage(message, passing)) ==
      t.(phase := if !message.Claim? then t.phase else if Complete(t, passing) then DONE
                  else if ReadyToVerify(t) then VERIFYING else t.phase)
    ensures Apply(t, SessionGate(message, passing)) ==
      t.(phase := if !message.Claim? then t.phase else if Complete(t, passing) then DONE
                  else if ReadyToVerify(t) then VERIFYING else IMPLEMENTING)
  {
    GateExact(t, message, passing);
    VerifyingExactly(t, message, passing);
  }

  // The ids listed are those of the records that qualify.
  ghost predicate Lists<T>(ids: seq<Id>, key: T -> Id, s: seq<T>, qualifies: T -> bool) {
    forall k :: k in ids <==> exists x :: x in s && qualifies(x) && key(x) == k
  }

  lemma {:induction false} ListsNone<T>(key: T -> Id, qualifies: T -> bool)
    ensures Lists([], key, [], qualifies)
  {
  }

  lemma {:induction false} ListsStep<T>(ids: seq<Id>, key: T -> Id, s: seq<T>, qualifies: T -> bool)
    requires s != [] && Lists(ids, key, s[1..], qualifies)
    ensures Lists((if qualifies(s[0]) then [key(s[0])] else []) + ids, key, s, qualifies)
  {
    assert forall x :: x in s <==> x == s[0] || x in s[1..];
    if qualifies(s[0]) { assert s[0] in s; }
    assert forall x :: x in s[1..] ==> x in s;
  }

  function Blocks(): Unknown -> bool { (u: Unknown) => u.blocking }

  function Undecided(): Assumption -> bool {
    (a: Assumption) => a.classification == DecisionCritical && a.standing != Resolved
  }

  function Unfinished(): Requirement -> bool {
    (r: Requirement) => r.status != Verified && !(r.status == Done && r.evidence != [])
  }

  function Unverified(): Requirement -> bool { (r: Requirement) => r.status != Verified }

  lemma {:induction false} BlockingListed(us: seq<Unknown>)
    ensures Lists(Blocking(us), UnknownId(), us, Blocks())
  {
    if us == [] {
      ListsNone(UnknownId(), Blocks());
    } else {
      BlockingListed(us[1..]);
      ListsStep(Blocking(us[1..]), UnknownId(), us, Blocks());
    }
  }

  lemma {:induction false} CriticalListed(s: seq<Assumption>)
    ensures Lists(Critical(s), AssumptionId(), s, Undecided())
  {
    if s == [] {
      ListsNone(AssumptionId(), Undecided());
    } else {
      CriticalListed(s[1..]);
      ListsStep(Critical(s[1..]), AssumptionId(), s, Undecided());
    }
  }

  lemma {:induction false} OutstandingListed(s: seq<Requirement>)
    ensures Lists(OutstandingIds(s), RequirementId(), s, Unfinished())
    ensures Lists(UnverifiedIds(s), RequirementId(), s, Unverified())
  {
    if s == [] {
      ListsNone(RequirementId(), Unfinished());
      ListsNone(RequirementId(), Unverified());
    } else {
      OutstandingListed(s[1..]);
      ListsStep(OutstandingIds(s[1..]), RequirementId(), s, Unfinished());
      ListsStep(UnverifiedIds(s[1..]), RequirementId(), s, Unverified());
    }
  }

  lemma {:induction false} FailedListed(passing: seq<Check> -> bool, checks: seq<Check>, ids: seq<Id>)
    ensures forall k :: k in FailedIds(passing, checks, ids) <==> k in ids && !passing(ChecksOf(checks, k))
  {
    if ids != [] {
      FailedListed(passing, checks, ids[1..]);
      assert forall k :: k in ids <==> k == ids[0] || k in ids[1..];
    }
  }

  // A gate that stays closed to a claim lists the first kind of obstacle there is: blocking questions, undecided
  // assumptions, unfinished requirements, unverified ones, and last the requirements whose checks fail.
  lemma {:induction false} PendingAre(t: Task, passing: seq<Check> -> bool)
    ensures var gate := GateOf(t, Claim, passing);
      gate.Blocked? && gate.pending != [] ==>
        || Lists(gate.pending, UnknownId(), Unknowns(t), Blocks())
        || ((forall u :: u in Unknowns(t) ==> !u.blocking) && Lists(gate.pending, AssumptionId(), Assumptions(t), Undecided()))
        || (Clear(t) && Lists(gate.pending, RequirementId(), t.requirements, Unfinished()))
        || (ReadyToVerify(t) && Lists(gate.pending, RequirementId(), t.requirements, Unverified()))
        || (ReadyToVerify(t) && (forall r :: r in t.requirements ==> r.status == Verified)
            && forall k :: k in gate.pending
                 <==> (exists c :: c in Checks(t) && c.reqId == k) && !passing(ChecksOf(Checks(t), k)))
  {
    VerifyingExactly(t, Claim, passing);
    BlockingListed(Unknowns(t));
    CriticalListed(Assumptions(t));
    OutstandingListed(t.requirements);
    NoneBlocking(Unknowns(t));
    NoneCritical(Assumptions(t));
    NoneUnverified(t.requirements);
    CheckedMembers(Checks(t));
    FailedListed(passing, Checks(t), CheckedIds(Checks(t)));
  }
}
