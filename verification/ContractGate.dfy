// The task contract: its commands, the completion gate and the phases. Requirement checks and the reading of a
// message are parameters; texts shown to the user are left out.
module ContractGate {
  import opened Common

  datatype Phase = PROPOSED | IMPLEMENTING | VERIFYING | DONE | WAITING | ASKING | ANSWERED | OtherPhase(name: string)

  datatype Approval = Proposed | Approved | Rejected

  datatype Progress = Pending | Done | Verified | OtherProgress(name: string)

  datatype Requirement = Requirement(id: Id, title: string, status: Progress, evidence: seq<string>)

  datatype Unknown = Unknown(id: Id, blocking: bool, answer: string, assumptionId: Option<Id>)

  datatype Classification = NonBlocking | DecisionCritical | Settled | OtherClass(name: string)

  datatype Standing = Active | Escalated | Resolved | OtherStanding(name: string)

  datatype Assumption = Assumption(id: Id, statement: string, classification: Classification, standing: Standing)

  datatype Check = Check(reqId: Id, checkId: Id)

  datatype CriterionStatus = Pass | Fail | NotKnown

  datatype Contract = Contract(
    status: Approval, requirements: seq<string>, unknowns: seq<Unknown>, assumptions: seq<Assumption>, checks: seq<Check>)

  datatype Task = Task(
    phase: Phase, contract: Option<Contract>, requirements: seq<Requirement>, criteria: seq<CriterionStatus>)

  // ---- finding and replacing the first record with an id ----

  function FindBy<T>(key: T -> Id, s: seq<T>, k: Id): (r: Option<T>)
    ensures r.Some? ==> r.value in s && key(r.value) == k
    ensures r.None? <==> forall x :: x in s ==> key(x) != k
  {
    if s == [] then None else if key(s[0]) == k then Some(s[0]) else FindBy(key, s[1..], k)
  }

  function SetBy<T>(key: T -> Id, s: seq<T>, k: Id, x: T): (r: seq<T>)
    ensures |r| == |s|
  {
    if s == [] then [] else if key(s[0]) == k then [x] + s[1..] else [s[0]] + SetBy(key, s[1..], k, x)
  }

  lemma {:induction false} SetByMembers<T>(key: T -> Id, s: seq<T>, k: Id, x: T)
    ensures forall y :: y in SetBy(key, s, k, x) ==> y == x || y in s
    ensures FindBy(key, s, k).Some? ==> x in SetBy(key, s, k, x)
  {
    if s != [] {
      SetByMembers(key, s[1..], k, x);
      assert forall y :: y in s <==> y == s[0] || y in s[1..];
    }
  }

  function RequirementId(): Requirement -> Id { (r: Requirement) => r.id }

  function UnknownId(): Unknown -> Id { (u: Unknown) => u.id }

  function AssumptionId(): Assumption -> Id { (a: Assumption) => a.id }

  // ---- evidence text ----

  // The white space and line terminators that trim removes.
  predicate IsBlank(c: char) {
    var n := c as int;
    || 9 <= n <= 13 || n == 0x20 || n == 0xA0 || n == 0x1680 || 0x2000 <= n <= 0x200A
    || n == 0x2028 || n == 0x2029 || n == 0x202F || n == 0x205F || n == 0x3000 || n == 0xFEFF
  }

  lemma {:induction false} BlankCharacters(c: char)
    ensures IsBlank(c) <==> c as int in {
      0x9, 0xA, 0xB, 0xC, 0xD, 0x20, 0xA0, 0x1680, 0x2000, 0x2001, 0x2002, 0x2003, 0x2004, 0x2005, 0x2006, 0x2007, 0x2008,
      0x2009, 0x200A, 0x2028, 0x2029, 0x202F, 0x205F, 0x3000, 0xFEFF}
  {
  }

  function TrimStart(s: string): string {
    if s != "" && IsBlank(s[0]) then TrimStart(s[1..]) else s
  }

  function TrimEnd(s: string): string
    decreases |s|
  {
    if s != "" && IsBlank(s[|s| - 1]) then TrimEnd(s[..|s| - 1]) else s
  }

  function Trim(s: Option<string>): string {
    if s.None? then "" else TrimEnd(TrimStart(s.value))
  }

  predicate AllBlank(s: string) {
    forall i :: 0 <= i < |s| ==> IsBlank(s[i])
  }

  lemma {:induction false} TrimStartFacts(s: string) returns (lead: string)
    ensures s == lead + TrimStart(s) && AllBlank(lead)
    ensures TrimStart(s) == "" || !IsBlank(TrimStart(s)[0])
  {
    lead := "";
    if s != "" && IsBlank(s[0]) {
      var rest := TrimStartFacts(s[1..]);
      lead := [s[0]] + rest;
    }
  }

  lemma {:induction false} TrimEndFacts(s: string) returns (trail: string)
    ensures s == TrimEnd(s) + trail && AllBlank(trail)
    ensures TrimEnd(s) == "" || !IsBlank(TrimEnd(s)[|TrimEnd(s)| - 1])
    decreases |s|
  {
    trail := "";
    if s != "" && IsBlank(s[|s| - 1]) {
      var rest := TrimEndFacts(s[..|s| - 1]);
      trail := rest + [s[|s| - 1]];
    }
  }

  // Trimming takes white space off both ends and nothing else.
  lemma {:induction false} TrimTakesEnds(s: string) returns (lead: string, trail: string)
    ensures s == lead + Trim(Some(s)) + trail && AllBlank(lead) && AllBlank(trail)
    ensures var t := Trim(Some(s)); t == "" || (!IsBlank(t[0]) && !IsBlank(t[|t| - 1]))
  {
    lead := TrimStartFacts(s);
    trail := TrimEndFacts(TrimStart(s));
  }

  // ---- what blocks ----

  function Unknowns(t: Task): seq<Unknown> {
    if t.contract.Some? then t.contract.value.unknowns else []
  }

  function Assumptions(t: Task): seq<Assumption> {
    if t.contract.Some? then t.contract.value.assumptions else []
  }

  function Checks(t: Task): seq<Check> {
    if t.contract.Some? then t.contract.value.checks else []
  }

  function Blocking(us: seq<Unknown>): seq<Id> {
    if us == [] then [] else (if us[0].blocking then [us[0].id] else []) + Blocking(us[1..])
  }

  predicate Unresolved(a: Assumption) {
    a.classification.DecisionCritical? && !a.standing.Resolved?
  }

  function Critical(s: seq<Assumption>): seq<Id> {
    if s == [] then [] else (if Unresolved(s[0]) then [s[0].id] else []) + Critical(s[1..])
  }

  predicate Outstanding(r: Requirement) {
    (!r.status.Done? && !r.status.Verified?) || (r.status.Done? && r.evidence == [])
  }

  function OutstandingIds(s: seq<Requirement>): seq<Id> {
    if s == [] then [] else (if Outstanding(s[0]) then [s[0].id] else []) + OutstandingIds(s[1..])
  }

  function UnverifiedIds(s: seq<Requirement>): seq<Id> {
    if s == [] then [] else (if !s[0].status.Verified? then [s[0].id] else []) + UnverifiedIds(s[1..])
  }

  predicate Failing(c: CriterionStatus) {
    c.Fail? || c.NotKnown?
  }

  function ChecksOf(checks: seq<Check>, reqId: Id): seq<Check> {
    if checks == [] then []
    else (if checks[0].reqId == reqId then [checks[0]] else []) + ChecksOf(checks[1..], reqId)
  }

  // The requirements that have checks, in order of their first check.
  function CheckedIds(checks: seq<Check>): seq<Id> {
    if checks == [] then []
    else
      var before := CheckedIds(checks[..|checks| - 1]);
      var last := checks[|checks| - 1].reqId;
      if last in before then before else before + [last]
  }

  function FailedIds(passing: seq<Check> -> bool, checks: seq<Check>, ids: seq<Id>): seq<Id> {
    if ids == [] then []
    else if passing(ChecksOf(checks, ids[0])) then FailedIds(passing, checks, ids[1..])
    else [ids[0]] + FailedIds(passing, checks, ids[1..])
  }

  // ---- the completion gate ----

  // A request to continue or approve, a claim that the task is finished, or anything else.
  datatype Message = Continue | Claim | Other

  datatype Gate = AutoApprove | NotClaimed | Blocked(verifying: bool, pending: seq<Id>) | AllDone

  predicate IsApproved(t: Task) {
    t.contract.Some? && t.contract.value.status.Approved?
  }

  function GateOf(t: Task, message: Message, passing: seq<Check> -> bool): Gate {
    if message.Continue? then AutoApprove
    else if message.Other? then NotClaimed
    else if Blocking(Unknowns(t)) != [] then Blocked(false, Blocking(Unknowns(t)))
    else if Critical(Assumptions(t)) != [] then Blocked(false, Critical(Assumptions(t)))
    else if OutstandingIds(t.requirements) != [] then Blocked(false, OutstandingIds(t.requirements))
    else if exists c :: c in t.criteria && Failing(c) then Blocked(false, [])
    else if !IsApproved(t) then Blocked(false, [])
    else if UnverifiedIds(t.requirements) != [] then Blocked(true, UnverifiedIds(t.requirements))
    else
      var failed := FailedIds(passing, Checks(t), CheckedIds(Checks(t)));
      if failed != [] then Blocked(true, failed) else AllDone
  }

  lemma {:induction false} NoneBlocking(us: seq<Unknown>)
    ensures Blocking(us) == [] <==> forall u :: u in us ==> !u.blocking
  {
    if us != [] {
      NoneBlocking(us[1..]);
      assert forall u :: u in us <==> u == us[0] || u in us[1..];
    }
  }

  lemma {:induction false} NoneCritical(s: seq<Assumption>)
    ensures Critical(s) == [] <==> forall a :: a in s ==> !Unresolved(a)
  {
    if s != [] {
      NoneCritical(s[1..]);
      assert forall a :: a in s <==> a == s[0] || a in s[1..];
    }
  }

  lemma {:induction false} NoneUnverified(s: seq<Requirement>)
    ensures UnverifiedIds(s) == [] <==> forall r :: r in s ==> r.status.Verified?
    ensures UnverifiedIds(s) == [] ==> OutstandingIds(s) == []
  {
    if s != [] {
      NoneUnverified(s[1..]);
      assert forall r :: r in s <==> r == s[0] || r in s[1..];
    }
  }

  lemma {:induction false} NoneFailed(passing: seq<Check> -> bool, checks: seq<Check>, ids: seq<Id>)
    ensures FailedIds(passing, checks, ids) == [] <==> forall k :: k in ids ==> passing(ChecksOf(checks, k))
  {
    if ids != [] {
      NoneFailed(passing, checks, ids[1..]);
      if forall k :: k in ids ==> passing(ChecksOf(checks, k)) {
        assert ids[0] in ids;
        assert forall k :: k in ids[1..] ==> k in ids;
      }
      if FailedIds(passing, checks, ids) == [] {
        assert passing(ChecksOf(checks, ids[0]));
        forall k | k in ids ensures passing(ChecksOf(checks, k)) {
          assert k == ids[0] || k in ids[1..];
        }
      }
    }
  }

  lemma {:induction false} CheckedMembers(checks: seq<Check>)
    ensures forall k :: k in CheckedIds(checks) <==> exists c :: c in checks && c.reqId == k
    decreases |checks|
  {
    if checks != [] {
      var n := |checks| - 1;
      CheckedMembers(checks[..n]);
      assert checks == checks[..n] + [checks[n]];
    }
  }

  // No blocking question, no unresolved critical assumption.
  ghost predicate Clear(t: Task) {
    t.contract.Some? ==>
      && (forall u :: u in t.contract.value.unknowns ==> !u.blocking)
      && (forall a :: a in t.contract.value.assumptions ==> a.classification == DecisionCritical ==> a.standing == Resolved)
  }

  // What it takes for a task to be complete.
  ghost predicate Complete(t: Task, passing: seq<Check> -> bool) {
    && t.contract.Some? && t.contract.value.status == Approved
    && Clear(t)
    && (forall r :: r in t.requirements ==> r.status == Verified)
    && (forall c :: c in t.criteria ==> c == Pass)
    && (forall c :: c in Checks(t) ==> passing(ChecksOf(Checks(t), c.reqId)))
  }

  // The gate opens exactly on a claim about a complete task.
  lemma GateExact(t: Task, message: Message, passing: seq<Check> -> bool)
    ensures GateOf(t, message, passing).AllDone? <==> message.Claim? && Complete(t, passing)
  {
    NoneBlocking(Unknowns(t));
    NoneCritical(Assumptions(t));
    NoneUnverified(t.requirements);
    var checks := Checks(t);
    NoneFailed(passing, checks, CheckedIds(checks));
    CheckedMembers(checks);
    if Complete(t, passing) {
      forall k | k in CheckedIds(checks) ensures passing(ChecksOf(checks, k)) {
        var c :| c in checks && c.reqId == k;
      }
    }
    if forall k :: k in CheckedIds(checks) ==> passing(ChecksOf(checks, k)) {
      forall c | c in checks ensures passing(ChecksOf(checks, c.reqId)) {
        assert c.reqId in CheckedIds(checks);
      }
    }
  }

  // ---- phases ----

  function PhaseAfter(t: Task, gate: Gate): Phase {
    if gate.AllDone? then DONE
    else if gate.Blocked? && gate.verifying then VERIFYING
    else t.phase
  }

  // The phase is stored when the gate blocks or opens.
  function MessagePhase(t: Task, gate: Gate): Task {
    if gate.Blocked? || gate.AllDone? then t.(phase := PhaseAfter(t, gate)) else t
  }

  // The other caller of the gate falls back to IMPLEMENTING.
  function SessionPhase(t: Task, gate: Gate): Task {
    if gate.Blocked? then t.(phase := if gate.verifying then VERIFYING else IMPLEMENTING)
    else if gate.AllDone? then t.(phase := DONE)
    else t
  }

  // ---- commands ----

  datatype Patch = Patch(requirements: Option<seq<string>>)

  datatype Command =
    | Approve
    | Reject
    | Edit(patch: Patch)
    | Mark(reqId: Id, status: Progress, evidence: Option<string>, verify: seq<Check> -> Option<seq<string>>)
    | Answer(questionId: Id, answer: Option<string>)
    | AnswerMessage(text: Option<string>)
    | Resolve(assumptionId: Id, proof: Option<string>)
    | Ask(decided: set<Id>)
    | Escalate(material: string -> bool)
    | GateMessage(message: Message, passing: seq<Check> -> bool)
    | SessionGate(message: Message, passing: seq<Check> -> bool)
    | VerifyByEvidence(requirementId: Id, evidenceId: Option<string>)

  function ContractOrNew(t: Task): Contract {
    if t.contract.Some? then t.contract.value else Contract(Proposed, [], [], [], [])
  }

  function Fresh(titles: seq<string>): (r: seq<Requirement>)
    ensures |r| == |titles|
    ensures forall i :: 0 <= i < |r| ==> r[i] == Requirement("req-" + Decimal(i + 1), titles[i], Pending, [])
  {
    seq(|titles|, i requires 0 <= i < |titles| => Requirement("req-" + Decimal(i + 1), titles[i], Pending, []))
  }

  // The evidence and status a mark leaves on a requirement, or None when it is refused.
  function Marked(t: Task, r: Requirement, status: Progress, evidence: Option<string>,
      verify: seq<Check> -> Option<seq<string>>): Option<Requirement>
  {
    var text := Trim(evidence);
    var checks := ChecksOf(Checks(t), r.id);
    if (status.Done? || status.Verified?) && text == "" then None
    else if status.Verified? && !r.status.Done? then None
    else if status.Verified? && checks != [] then
      var found := verify(checks);
      if found.None? then None else Some(r.(status := status, evidence := r.evidence + found.value + [text]))
    else if status.Done? && r.status.Verified? && checks != [] then None
    else if status.Done? || status.Verified? then Some(r.(status := status, evidence := r.evidence + [text]))
    else if status.Pending? then Some(r.(status := status, evidence := []))
    else Some(r.(status := status))
  }

  function ResolveIn(assumptions: seq<Assumption>, id: Option<Id>): seq<Assumption> {
    if id.None? then assumptions
    else
      var a := FindBy(AssumptionId(), assumptions, id.value);
      if a.None? then assumptions
      else SetBy(AssumptionId(), assumptions, id.value, Settle(a.value))
  }

  function Settle(a: Assumption): Assumption {
    a.(classification := Settled, standing := Resolved)
  }

  // The assumption a question is about; an empty id is none.
  function About(u: Unknown): Option<Id> {
    if u.assumptionId == Some("") then None else u.assumptionId
  }

  function Answered(u: Unknown, text: string): Unknown {
    u.(blocking := false, answer := text)
  }

  // Every blocking question gets the answer, and the assumption it asks about is resolved.
  function AnswerAll(us: seq<Unknown>, text: string): seq<Unknown> {
    if us == [] then []
    else [if us[0].blocking then Answered(us[0], text) else us[0]] + AnswerAll(us[1..], text)
  }

  function ResolveAll(us: seq<Unknown>, assumptions: seq<Assumption>): seq<Assumption>
    decreases |us|
  {
    if us == [] then assumptions
    else ResolveAll(us[1..], if us[0].blocking then ResolveIn(assumptions, About(us[0])) else assumptions)
  }

  // The first blocking question about an assumption, answered.
  function AnswerAbout(us: seq<Unknown>, assumption: Id, text: string): seq<Unknown> {
    if us == [] then []
    else if us[0].blocking && us[0].assumptionId == Some(assumption) then [Answered(us[0], text)] + us[1..]
    else [us[0]] + AnswerAbout(us[1..], assumption, text)
  }

  function AnswerOne(c: Contract, id: Id, text: string): Contract
    requires FindBy(UnknownId(), c.unknowns, id).Some?
  {
    var u := FindBy(UnknownId(), c.unknowns, id).value;
    c.(unknowns := SetBy(UnknownId(), c.unknowns, id, Answered(u, text)),
       assumptions := ResolveIn(c.assumptions, About(u)))
  }

  // An assumption that the current message makes material.
  predicate Rises(a: Assumption, material: string -> bool) {
    a.standing.Active? && a.classification.NonBlocking? && material(a.statement)
  }

  function Raised(a: Assumption, material: string -> bool): Assumption {
    if Rises(a, material) then a.(classification := DecisionCritical, standing := Escalated) else a
  }

  function RaiseAll(s: seq<Assumption>, material: string -> bool): (r: seq<Assumption>)
    ensures |r| == |s| && forall i :: 0 <= i < |s| ==> r[i] == Raised(s[i], material)
  {
    seq(|s|, i requires 0 <= i < |s| => Raised(s[i], material))
  }

  predicate Unlinked(u: Unknown) {
    u.blocking && About(u).None?
  }

  function LinkFirst(us: seq<Unknown>, id: Id): (r: seq<Unknown>)
    ensures |r| == |us|
  {
    if us == [] then []
    else if Unlinked(us[0]) then [us[0].(assumptionId := Some(id))] + us[1..]
    else [us[0]] + LinkFirst(us[1..], id)
  }

  // A raised assumption takes over the first blocking question that is about none, or gets a question of its own.
  function Covered(us: seq<Unknown>, id: Id): seq<Unknown> {
    if exists u :: u in us && Unlinked(u) then LinkFirst(us, id)
    else if exists u :: u in us && u.assumptionId == Some(id) then us
    else us + [Unknown("U" + Decimal(|us| + 1), true, "", Some(id))]
  }

  function CoverAll(s: seq<Assumption>, us: seq<Unknown>, material: string -> bool): seq<Unknown>
    decreases |s|
  {
    if s == [] then us
    else CoverAll(s[1..], if Rises(s[0], material) then Covered(us, s[0].id) else us, material)
  }

  // The task after a command, or None when the command is refused and nothing is stored.
  function Try(t: Task, c: Command): Option<Task> {
    match c
    case Approve =>
      if Blocking(Unknowns(t)) != [] || Critical(Assumptions(t)) != [] then None
      else
        Some(t.(contract := Some(ContractOrNew(t).(status := Approved)),
                phase := if t.phase.DONE? then DONE else IMPLEMENTING))
    case Reject => Some(t.(contract := Some(ContractOrNew(t).(status := Rejected)), phase := WAITING))
    case Edit(patch) =>
      var contract := ContractOrNew(t).(status := Proposed);
      Some(match patch.requirements
           case None => t.(contract := Some(contract), phase := PROPOSED)
           case Some(titles) =>
             t.(contract := Some(contract.(requirements := titles)), requirements := Fresh(titles), phase := PROPOSED))
    case Mark(reqId, status, evidence, verify) =>
      var r := FindBy(RequirementId(), t.requirements, reqId);
      if r.None? then None
      else
        var marked := Marked(t, r.value, status, evidence, verify);
        if marked.None? then None
        else Some(t.(requirements := SetBy(RequirementId(), t.requirements, reqId, marked.value)))
    case Answer(id, answer) =>
      if FindBy(UnknownId(), Unknowns(t), id).None? || Trim(answer) == "" then None
      else Some(t.(contract := Some(AnswerOne(t.contract.value, id, Trim(answer))), phase := PROPOSED))
    case AnswerMessage(text) =>
      if Blocking(Unknowns(t)) == [] || Trim(text) == "" then None
      else
        var k := t.contract.value;
        Some(t.(contract := Some(k.(unknowns := AnswerAll(k.unknowns, Trim(text)),
                                    assumptions := ResolveAll(k.unknowns, k.assumptions))),
                phase := PROPOSED))
    case Resolve(id, proof) =>
      if FindBy(AssumptionId(), Assumptions(t), id).None? || Trim(proof) == "" then None
      else
        var k := t.contract.value;
        var unknowns := AnswerAbout(k.unknowns, id, Trim(proof));
        Some(t.(contract := Some(k.(unknowns := unknowns, assumptions := ResolveIn(k.assumptions, Some(id)))),
                phase := if t.phase.ASKING? && Blocking(unknowns) == [] then PROPOSED else t.phase))
    case Ask(decided) =>
      if (exists u :: u in Unknowns(t) && u.blocking && u.id !in decided) && !t.phase.ANSWERED? then
        Some(t.(phase := ASKING))
      else None
    case Escalate(material) =>
      if exists a :: a in Assumptions(t) && Rises(a, material) then
        var k := t.contract.value;
        Some(t.(contract := Some(k.(assumptions := RaiseAll(k.assumptions, material),
                                    unknowns := CoverAll(k.assumptions, k.unknowns, material)))))
      else None
    case GateMessage(message, passing) => Some(MessagePhase(t, GateOf(t, message, passing)))
    case SessionGate(message, passing) => Some(SessionPhase(t, GateOf(t, message, passing)))
    case VerifyByEvidence(id, evidenceId) =>
      var r := FindBy(RequirementId(), t.requirements, id);
      if id == "" || r.None? then None
      else Some(t.(requirements := SetBy(RequirementId(), t.requirements, id, VerifiedBy(r.value, evidenceId))))
  }

  function VerifiedBy(r: Requirement, evidenceId: Option<string>): Requirement {
    var add := evidenceId.Some? && evidenceId.value != "" && evidenceId.value !in r.evidence;
    r.(status := Verified, evidence := if add then r.evidence + [evidenceId.value] else r.evidence)
  }

  function Apply(t: Task, c: Command): Task {
    var after := Try(t, c);
    if after.Some? then after.value else t
  }

  function Run(t: Task, cs: seq<Command>): Task
    decreases |cs|
  {
    if cs == [] then t else Run(Apply(t, cs[0]), cs[1..])
  }

  lemma {:induction false} RunSplits(t: Task, cs: seq<Command>, n: nat)
    requires n < |cs|
    ensures Run(t, cs[..n + 1]) == Apply(Run(t, cs[..n]), cs[n])
    decreases n
  {
    if n == 0 {
      assert cs[..1][1..] == [];
    } else {
      RunSplits(Apply(t, cs[0]), cs[1..], n - 1);
      assert cs[..n + 1][1..] == cs[1..][..n] && cs[..n][1..] == cs[1..][..n - 1];
    }
  }

  // A property that a step keeps exactly when it is not a bad step holds all along a run exactly when the run
  // takes no bad step.
  ghost predicate AllAlong(good: Task -> bool, t: Task, cs: seq<Command>) {
    forall n :: 0 <= n <= |cs| ==> good(Run(t, cs[..n]))
  }

  ghost predicate Avoids(bad: (Task, Command) -> bool, t: Task, cs: seq<Command>) {
    forall n :: 0 <= n < |cs| ==> !bad(Run(t, cs[..n]), cs[n])
  }

  lemma {:induction false} RunExactly(good: Task -> bool, bad: (Task, Command) -> bool, t: Task, cs: seq<Command>)
    requires good(t)
    requires forall t, c :: good(t) ==> (good(Apply(t, c)) <==> !bad(t, c))
    ensures AllAlong(good, t, cs) <==> Avoids(bad, t, cs)
  {
    if AllAlong(good, t, cs) {
      forall n | 0 <= n < |cs| ensures !bad(Run(t, cs[..n]), cs[n]) {
        RunSplits(t, cs, n);
        assert good(Run(t, cs[..n])) && good(Run(t, cs[..n + 1]));
      }
    }
    if Avoids(bad, t, cs) {
      forall n | 0 <= n <= |cs| ensures good(Run(t, cs[..n])) {
        GoodSoFar(good, bad, t, cs, n);
      }
    }
  }

  lemma {:induction false} GoodSoFar(good: Task -> bool, bad: (Task, Command) -> bool, t: Task, cs: seq<Command>, n: nat)
    requires good(t) && n <= |cs| && Avoids(bad, t, cs)
    requires forall t, c :: good(t) ==> (good(Apply(t, c)) <==> !bad(t, c))
    ensures good(Run(t, cs[..n]))
    decreases n
  {
    if n > 0 {
      GoodSoFar(good, bad, t, cs, n - 1);
      RunSplits(t, cs, n - 1);
    }
  }

  // ---- done and verified requirements carry evidence ----

  predicate Supported(r: Requirement) {
    r.status.Done? || r.status.Verified? ==> r.evidence != []
  }

  ghost predicate AllSupported(t: Task) {
    forall r :: r in t.requirements ==> r.status == Done || r.status == Verified ==> r.evidence != []
  }

  // The one command that can verify without evidence: by an evidence id that is missing or empty, on a
  // requirement that has none.
  predicate Unfounded(t: Task, c: Command) {
    && c.VerifyByEvidence? && c.requirementId != ""
    && (c.evidenceId.None? || c.evidenceId.value == "")
    && var r := FindBy(RequirementId(), t.requirements, c.requirementId);
       r.Some? && r.value.evidence == []
  }

  // A command keeps the evidence of a supported task exactly when it is not such a verification.
  lemma SupportedExactly(t: Task, c: Command)
    requires AllSupported(t)
    ensures AllSupported(Apply(t, c)) <==> !Unfounded(t, c)
  {
    match c {
      case Mark(reqId, status, evidence, verify) =>
        var r := FindBy(RequirementId(), t.requirements, reqId);
        if r.Some? {
          var marked := Marked(t, r.value, status, evidence, verify);
          if marked.Some? {
            assert Supported(marked.value);
            SetByMembers(RequirementId(), t.requirements, reqId, marked.value);
          }
        }
      case VerifyByEvidence(id, evidenceId) =>
        var r := FindBy(RequirementId(), t.requirements, id);
        if id != "" && r.Some? {
          SetByMembers(RequirementId(), t.requirements, id, VerifiedBy(r.value, evidenceId));
        }
      case Edit(patch) =>
        if patch.requirements.Some? {
          forall r | r in Fresh(patch.requirements.value) ensures Supported(r) {
            var i :| 0 <= i < |Fresh(patch.requirements.value)| && Fresh(patch.requirements.value)[i] == r;
          }
        }
      case _ =>
    }
  }

  predicate Founded(t: Task, cs: seq<Command>)
    decreases |cs|
  {
    cs != [] ==> !Unfounded(t, cs[0]) && Founded(Apply(t, cs[0]), cs[1..])
  }

  // Over every run without an unfounded verification, each done or verified requirement has evidence.
  lemma {:induction false} EveryRunSupported(t: Task, cs: seq<Command>)
    requires AllSupported(t) && Founded(t, cs)
    ensures AllSupported(Run(t, cs))
    decreases |cs|
  {
    if cs != [] {
      SupportedExactly(t, cs[0]);
      EveryRunSupported(Apply(t, cs[0]), cs[1..]);
    }
  }

  // ---- the step into DONE ----

  predicate IsGate(c: Command) {
    c.GateMessage? || c.SessionGate?
  }

  // A task that is not DONE becomes DONE exactly when the gate is asked about a claim and the task is complete.
  lemma IntoDoneExactly(t: Task, c: Command)
    requires !t.phase.DONE?
    ensures Apply(t, c).phase.DONE? <==> IsGate(c) && c.message.Claim? && Complete(t, c.passing)
  {
    if IsGate(c) {
      GateExact(t, c.message, c.passing);
    }
  }

  // Somewhere in any run from a task that is not DONE to one that is, a complete task was claimed finished.
  lemma {:induction false} RunIntoDone(t: Task, cs: seq<Command>) returns (n: nat)
    requires !t.phase.DONE? && Run(t, cs).phase.DONE?
    ensures n < |cs| && IsGate(cs[n]) && cs[n].message.Claim? && Complete(Run(t, cs[..n]), cs[n].passing)
    decreases |cs|
  {
    var next := Apply(t, cs[0]);
    IntoDoneExactly(t, cs[0]);
    if next.phase.DONE? {
      n := 0;
      assert cs[..0] == [];
    } else {
      var m := RunIntoDone(next, cs[1..]);
      n := m + 1;
      assert cs[..n][1..] == cs[1..][..m];
    }
  }

  // ---- after DONE ----

  ghost predicate AllVerified(t: Task) {
    forall r :: r in t.requirements ==> r.status.Verified?
  }

  ghost predicate DoneVerified(t: Task) {
    t.phase.DONE? ==> AllVerified(t)
  }

  // Marking an existing requirement of a DONE task as anything but verified; as done, with evidence and without
  // checks of that requirement.
  predicate Unverifies(t: Task, c: Command) {
    && t.phase.DONE? && c.Mark? && !c.status.Verified?
    && FindBy(RequirementId(), t.requirements, c.reqId).Some?
    && (c.status.Done? ==> Trim(c.evidence) != "" && ChecksOf(Checks(t), c.reqId) == [])
  }

  // DONE does not lock the requirements: a command keeps "DONE means every requirement is verified" exactly when
  // it is not such a mark.
  lemma {:induction false} DoneVerifiedExactly(t: Task, c: Command)
    requires DoneVerified(t)
    ensures DoneVerified(Apply(t, c)) <==> !Unverifies(t, c)
  {
    if !t.phase.DONE? {
      IntoDoneExactly(t, c);
    } else {
      match c {
        case Mark(reqId, status, evidence, verify) => MarkWhenDone(t, reqId, status, evidence, verify);
        case VerifyByEvidence(id, evidenceId) =>
          var r := FindBy(RequirementId(), t.requirements, id);
          if id != "" && r.Some? {
            SetByMembers(RequirementId(), t.requirements, id, VerifiedBy(r.value, evidenceId));
          }
        case _ =>
      }
    }
  }

  lemma {:induction false} MarkWhenDone(t: Task, reqId: Id, status: Progress, evidence: Option<string>,
      verify: seq<Check> -> Option<seq<string>>)
    requires t.phase.DONE? && AllVerified(t)
    ensures var c := Mark(reqId, status, evidence, verify);
      Apply(t, c).phase.DONE? && (AllVerified(Apply(t, c)) <==> !Unverifies(t, c))
  {
    var found := FindBy(RequirementId(), t.requirements, reqId);
    if found.Some? {
      var marked := Marked(t, found.value, status, evidence, verify);
      if marked.Some? {
        SetByMembers(RequirementId(), t.requirements, reqId, marked.value);
        assert marked.value.status == status;
      }
    }
  }

  // The plainest such mark: back to pending.
  lemma DoneWithPending(t: Task, id: Id, verify: seq<Check> -> Option<seq<string>>)
    requires t.phase.DONE? && FindBy(RequirementId(), t.requirements, id).Some?
    ensures var after := Apply(t, Mark(id, Pending, None, verify));
      after.phase.DONE? && exists r :: r in after.requirements && r.id == id && r.status.Pending? && r.evidence == []
  {
    var r := FindBy(RequirementId(), t.requirements, id).value;
    var reset := r.(status := Pending, evidence := []);
    SetByMembers(RequirementId(), t.requirements, id, reset);
    assert reset in Apply(t, Mark(id, Pending, None, verify)).requirements;
  }

  // Over a run, DONE goes on meaning that every requirement is verified exactly when no step is such a mark.
  lemma {:induction false} EveryRunDoneVerified(t: Task, cs: seq<Command>)
    requires DoneVerified(t)
    ensures AllAlong(DoneVerified, t, cs) <==> Avoids(Unverifies, t, cs)
  {
    forall s, c | DoneVerified(s) ensures DoneVerified(Apply(s, c)) <==> !Unverifies(s, c) {
      DoneVerifiedExactly(s, c);
    }
    RunExactly(DoneVerified, Unverifies, t, cs);
  }

  // ---- becoming verified ----

  // A requirement's checks are exactly those of the contract that name it.
  lemma {:induction false} OwnChecks(checks: seq<Check>, reqId: Id)
    ensures forall c :: multiset(ChecksOf(checks, reqId))[c] == if c.reqId == reqId then multiset(checks)[c] else 0
  {
    if checks != [] {
      OwnChecks(checks[1..], reqId);
      assert checks == [checks[0]] + checks[1..];
    }
  }

  // What a request to verify asks of a requirement: done before, evidence that is not blank, and its checks, if it has
  // any, passed.
  predicate MayVerify(r: Requirement, evidence: Option<string>, checks: seq<Check>,
    verify: seq<Check> -> Option<seq<string>>)
  {
    r.status.Done? && evidence.Some? && !AllBlank(evidence.value) && (checks != [] ==> verify(checks).Some?)
  }

  lemma {:induction false} NotBlank(evidence: Option<string>)
    ensures Trim(evidence) != "" <==> evidence.Some? && !AllBlank(evidence.value)
  {
    if evidence.Some? {
      var lead, trail := TrimTakesEnds(evidence.value);
      var t, s := Trim(evidence), evidence.value;
      if t != "" { assert s[|lead|] == t[0]; }
    }
  }

  lemma {:induction false} FoundSet<T>(key: T -> Id, s: seq<T>, k: Id, x: T)
    requires FindBy(key, s, k).Some? && key(x) == k
    ensures FindBy(key, SetBy(key, s, k, x), k) == Some(x)
  {
    if key(s[0]) != k {
      FoundSet(key, s[1..], k, x);
      assert SetBy(key, s, k, x)[1..] == SetBy(key, s[1..], k, x);
    }
  }

  // A mark makes a requirement verified exactly when it asks for that and may have it; the evidence of the checks and
  // the trimmed text are then added.
  lemma {:induction false} MarkVerifies(t: Task, c: Command, r: Requirement)
    requires c.Mark? && FindBy(RequirementId(), t.requirements, c.reqId) == Some(r) && !r.status.Verified?
    ensures var checks := ChecksOf(Checks(t), c.reqId);
      var after := FindBy(RequirementId(), Apply(t, c).requirements, c.reqId);
      && after.Some?
      && (after.value.status.Verified? <==> c.status.Verified? && MayVerify(r, c.evidence, checks, c.verify))
      && (after.value.status.Verified? ==>
            after.value.evidence == r.evidence + (if checks == [] then [] else c.verify(checks).value) + [Trim(c.evidence)])
  {
    NotBlank(c.evidence);
    var marked := Marked(t, r, c.status, c.evidence, c.verify);
    if marked.Some? {
      FoundSet(RequirementId(), t.requirements, c.reqId, marked.value);
    }
  }

  // ---- an approved contract is clear ----

  // Approval is refused exactly while something blocks.
  lemma ApproveExactly(t: Task)
    ensures Try(t, Approve).Some? <==> Clear(t)
    ensures Try(t, Approve).Some? ==> IsApproved(Try(t, Approve).value)
  {
    NoneBlocking(Unknowns(t));
    NoneCritical(Assumptions(t));
  }

  lemma {:induction false} AnswerAboutKeeps(us: seq<Unknown>, id: Id, text: string)
    requires forall u :: u in us ==> !u.blocking
    ensures AnswerAbout(us, id, text) == us
  {
    if us != [] {
      assert !us[0].blocking;
      AnswerAboutKeeps(us[1..], id, text);
    }
  }

  lemma ResolveKeeps(s: seq<Assumption>, id: Option<Id>)
    requires forall a :: a in s ==> !Unresolved(a)
    ensures forall a :: a in ResolveIn(s, id) ==> !Unresolved(a)
  {
    if id.Some? && FindBy(AssumptionId(), s, id.value).Some? {
      var a := FindBy(AssumptionId(), s, id.value).value;
      SetByMembers(AssumptionId(), s, id.value, Settle(a));
    }
  }

  lemma {:induction false} AnswerOneClear(c: Contract, id: Id, text: string)
    requires FindBy(UnknownId(), c.unknowns, id).Some?
    requires (forall u :: u in c.unknowns ==> !u.blocking) && forall a :: a in c.assumptions ==> !Unresolved(a)
    ensures forall u :: u in AnswerOne(c, id, text).unknowns ==> !u.blocking
    ensures forall a :: a in AnswerOne(c, id, text).assumptions ==> !Unresolved(a)
  {
    var u := FindBy(UnknownId(), c.unknowns, id).value;
    SetByMembers(UnknownId(), c.unknowns, id, Answered(u, text));
    ResolveKeeps(c.assumptions, About(u));
  }

  // The commands that touch neither questions nor assumptions.
  predicate LeavesQuestions(c: Command) {
    !c.Answer? && !c.AnswerMessage? && !c.Resolve? && !c.Escalate?
  }

  lemma {:induction false} QuestionsLeft(t: Task, c: Command)
    requires LeavesQuestions(c)
    ensures Unknowns(Apply(t, c)) == Unknowns(t) && Assumptions(Apply(t, c)) == Assumptions(t)
    ensures IsApproved(Apply(t, c)) ==> IsApproved(t) || c.Approve?
  {
  }

  lemma {:induction false} ClearAfterAnswer(t: Task, c: Command)
    requires IsApproved(t) && Clear(t) && !LeavesQuestions(c) && !c.Escalate?
    ensures Clear(Apply(t, c))
  {
    NoneBlocking(Unknowns(t));
    if Try(t, c).Some? {
      match c {
        case Answer(id, answer) => AnswerOneClear(t.contract.value, id, Trim(answer));
        case Resolve(id, proof) =>
          AnswerAboutKeeps(t.contract.value.unknowns, id, Trim(proof));
          ResolveKeeps(t.contract.value.assumptions, Some(id));
        case _ =>
      }
    }
  }

  ghost predicate ApprovedClear(t: Task) {
    IsApproved(t) ==> Clear(t)
  }

  // An escalation, after approval, of an active assumption that was not critical when the contract was approved.
  predicate Overtakes(t: Task, c: Command) {
    c.Escalate? && IsApproved(t) && exists a :: a in Assumptions(t) && Rises(a, c.material)
  }

  lemma {:induction false} EscalationBlocks(t: Task, c: Command)
    requires Overtakes(t, c)
    ensures IsApproved(Apply(t, c)) && !Clear(Apply(t, c))
  {
    var s := Assumptions(t);
    var a :| a in s && Rises(a, c.material);
    var i :| 0 <= i < |s| && s[i] == a;
    assert RaiseAll(s, c.material)[i] in Assumptions(Apply(t, c));
  }

  // A command keeps an approved contract clear exactly when it is not such an escalation.
  lemma {:induction false} ApprovedClearExactly(t: Task, c: Command)
    requires ApprovedClear(t)
    ensures ApprovedClear(Apply(t, c)) <==> !Overtakes(t, c)
  {
    if LeavesQuestions(c) {
      QuestionsLeft(t, c);
      if c.Approve? { ApproveExactly(t); }
    } else if Overtakes(t, c) {
      EscalationBlocks(t, c);
    } else if IsApproved(t) && !c.Escalate? {
      ClearAfterAnswer(t, c);
    }
  }

  // Over a run, an approved contract has nothing blocking all along exactly when no step is such an escalation.
  lemma {:induction false} EveryRunClear(t: Task, cs: seq<Command>)
    requires ApprovedClear(t)
    ensures AllAlong(ApprovedClear, t, cs) <==> Avoids(Overtakes, t, cs)
  {
    forall s, c | ApprovedClear(s) ensures ApprovedClear(Apply(s, c)) <==> !Overtakes(s, c) {
      ApprovedClearExactly(s, c);
    }
    RunExactly(ApprovedClear, Overtakes, t, cs);
  }

  lemma {:induction false} FirstQuestion(t: Task, a: Assumption, material: string -> bool)
    requires Assumptions(t) == [a] && Unknowns(t) == [] && Rises(a, material)
    ensures Unknowns(Apply(t, Escalate(material))) == [Unknown("U1", true, "", Some(a.id))]
  {
    assert a in Assumptions(t) && [a][1..] == [];
    assert CoverAll([a], [], material) == CoverAll([], Covered([], a.id), material) == Covered([], a.id);
    assert Decimal(1) == "1" && "U" + "1" == "U1";
  }

  // Such an escalation happens: a proposed contract resting on one active assumption is approved, and the next
  // message that makes the assumption material leaves it approved with an open question of its own.
  lemma {:induction false} ApprovedThenBlocked(material: string -> bool)
    requires material("agregar nueva funcionalidad")
    ensures
      var a := Assumption("A1", "agregar nueva funcionalidad", NonBlocking, Active);
      var t := Task(PROPOSED, Some(Contract(Proposed, [], [], [a], [])), [], []);
      var after := Run(t, [Approve, Escalate(material)]);
      Clear(t) && IsApproved(after) && !Clear(after) && Unknowns(after) == [Unknown("U1", true, "", Some("A1"))]
  {
    var a := Assumption("A1", "agregar nueva funcionalidad", NonBlocking, Active);
    var t := Task(PROPOSED, Some(Contract(Proposed, [], [], [a], [])), [], []);
    ApproveExactly(t);
    var approved := Apply(t, Approve);
    assert Assumptions(approved) == [a] && Unknowns(approved) == [];
    FirstQuestion(approved, a, material);
    EscalationBlocks(approved, Escalate(material));
    assert [Approve, Escalate(material)][1..] == [Escalate(material)];
    assert Run(approved, [Escalate(material)]) == Apply(approved, Escalate(material));
  }
}
