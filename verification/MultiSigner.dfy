// N-of-M approval of changes: how the quorum is configured, what runs of approvals and resets keep, and
// when two approved changes must share a signer.
module MultiSigners {
  import opened Common

  // ---- configuration ----

  // A signer that is not a string is None; a required count that is not a finite number is None.
  datatype Config = Config(signers: Option<seq<Option<string>>>, required: Option<real>, mode: Option<string>)

  datatype ConfigError = NoSigners | RequiredOutOfRange(required: real, total: nat)

  datatype Quorum = Quorum(signers: seq<string>, required: real)

  function Eligible(signers: seq<Option<string>>): (r: seq<string>)
    ensures forall x :: x in r <==> x != "" && Some(x) in signers
  {
    if signers == [] then []
    else
      assert forall x :: x in signers <==> x == signers[0] || x in signers[1..];
      (if signers[0].Some? && signers[0].value != "" then [signers[0].value] else []) + Eligible(signers[1..])
  }

  // A signer listed twice counts twice, and none is lost.
  lemma {:induction false} EligibleCounts(signers: seq<Option<string>>, x: string)
    ensures multiset(Eligible(signers))[x] == if x == "" then 0 else multiset(signers)[Some(x)]
  {
    if signers != [] {
      EligibleCounts(signers[1..], x);
      assert signers == [signers[0]] + signers[1..];
    }
  }

  // At least one signer is a non-empty string.
  ghost predicate SomeSigner(config: Config) {
    config.signers.Some? && exists x :: x != "" && Some(x) in config.signers.value
  }

  // The required count asked for lies between one and the number of eligible signers.
  predicate InRange(config: Config)
    requires config.signers.Some? && config.required.Some?
  {
    1.0 <= config.required.value <= |Eligible(config.signers.value)| as real
  }

  function NormalizeConfig(config: Config): (r: Result<Quorum, ConfigError>)
    ensures r == Err(NoSigners) <==> !SomeSigner(config)
    ensures r.Ok? <==> SomeSigner(config) && (config.required.Some? ==> InRange(config))
    ensures r.Ok? ==> (forall x :: x in r.value.signers <==> x != "" && Some(x) in config.signers.value)
    ensures r.Ok? && config.required.Some? ==> r.value.required == config.required.value
    ensures r.Ok? && config.required.None? && config.mode == Some("any") ==> r.value.required == 1.0
    ensures r.Ok? && config.required.None? && config.mode != Some("any") && config.mode != Some("majority") ==>
      r.value.required == |r.value.signers| as real
    ensures r.Ok? ==> r.value.signers != [] && 1.0 <= r.value.required <= |r.value.signers| as real
    ensures r.Ok? && config.required.None? && config.mode == Some("majority") ==>
      2.0 * r.value.required > |r.value.signers| as real >= 2.0 * (r.value.required - 1.0)
    ensures r.Err? && SomeSigner(config) ==>
      r.error == RequiredOutOfRange(config.required.value, |Eligible(config.signers.value)|)
  {
    var signers := if config.signers.Some? then Eligible(config.signers.value) else [];
    assert signers != [] ==> signers[0] in signers;
    if signers == [] then Err(NoSigners)
    else
      match config.required
      case Some(explicit) =>
        if explicit < 1.0 || explicit > |signers| as real then Err(RequiredOutOfRange(explicit, |signers|))
        else Ok(Quorum(signers, explicit))
      case None =>
        if config.mode == Some("majority") then Ok(Quorum(signers, (|signers| / 2 + 1) as real))
        else if config.mode == Some("any") then Ok(Quorum(signers, 1.0))
        else Ok(Quorum(signers, |signers| as real))
  }

  // ---- approvals ----

  type Tallies = map<string, seq<string>>

  datatype Command = Approve(change: Option<string>, signer: Option<string>) | Reset(target: Option<string>)

  datatype Reason =
    | ChangeRequired | SignerRequired | NotEligible | Duplicate | Recorded | QuorumReached

  function Approvals(t: Tallies, change: string): seq<string> {
    if change in t then t[change] else []
  }

  predicate Meets(q: Quorum, k: nat) {
    k as real >= q.required
  }

  predicate Satisfied(q: Quorum, t: Tallies, change: string) {
    Meets(q, |Approvals(t, change)|)
  }

  // A missing or empty identifier.
  predicate Blank(id: Option<string>) {
    id.None? || id.value == ""
  }

  predicate Accepted(q: Quorum, t: Tallies, change: Option<string>, signer: Option<string>) {
    && !Blank(change) && !Blank(signer)
    && signer.value in q.signers
    && signer.value !in Approvals(t, change.value)
  }

  function WithApproval(t: Tallies, change: string, signer: string): Tallies {
    t[change := Approvals(t, change) + [signer]]
  }

  function Apply(q: Quorum, t: Tallies, c: Command): Tallies {
    match c
    case Approve(change, signer) =>
      if Accepted(q, t, change, signer) then WithApproval(t, change.value, signer.value) else t
    case Reset(None) => map[]
    case Reset(Some(change)) => t - {change}
  }

  function Run(q: Quorum, t: Tallies, cs: seq<Command>): Tallies
    decreases |cs|
  {
    if cs == [] then t else Run(q, Apply(q, t, cs[0]), cs[1..])
  }

  // ---- what runs keep ----

  // Every change has distinct approvals, all by eligible signers.
  ghost predicate Proper(q: Quorum, t: Tallies) {
    forall change :: change in t ==> ProperList(q, t[change])
  }

  predicate ProperList(q: Quorum, list: seq<string>) {
    NoDup(list) && forall s :: s in list ==> s in q.signers
  }

  lemma {:induction false} EveryRunProper(q: Quorum, t: Tallies, cs: seq<Command>)
    requires Proper(q, t)
    ensures Proper(q, Run(q, t, cs))
    decreases |cs|
  {
    if cs != [] {
      EveryRunProper(q, Apply(q, t, cs[0]), cs[1..]);
    }
  }

  // Until a reset, approvals are only added at the end, so a satisfied change stays satisfied.
  lemma {:induction false} StableUntilReset(q: Quorum, t: Tallies, cs: seq<Command>, change: string)
    requires forall c :: c in cs ==> c != Reset(None) && c != Reset(Some(change))
    ensures Approvals(t, change) <= Approvals(Run(q, t, cs), change)
    ensures Satisfied(q, t, change) ==> Satisfied(q, Run(q, t, cs), change)
    decreases |cs|
  {
    if cs != [] {
      assert cs[0] in cs && forall c :: c in cs[1..] ==> c in cs;
      StableUntilReset(q, Apply(q, t, cs[0]), cs[1..], change);
    }
  }

  // ---- when two satisfied changes share an approver ----

  // The least whole number of approvals that satisfies the quorum.
  function Need(q: Quorum): (n: int)
    ensures forall k: nat :: Meets(q, k) <==> k >= n
  {
    -(-q.required).Floor
  }

  lemma ApproversOf(q: Quorum, t: Tallies, change: string)
    requires Proper(q, t) && Satisfied(q, t, change)
    ensures Elems(Approvals(t, change)) <= Elems(q.signers) && |Elems(Approvals(t, change))| >= Need(q)
  {
    var list := Approvals(t, change);
    assert ProperList(q, list);
    NoDupCard(list);
  }

  lemma Overlap(q: Quorum, t: Tallies, a: string, b: string)
    requires Proper(q, t) && Satisfied(q, t, a) && Satisfied(q, t, b)
    requires 2 * Need(q) > |Elems(q.signers)|
    ensures exists s :: s in Approvals(t, a) && s in Approvals(t, b)
  {
    ApproversOf(q, t, a);
    ApproversOf(q, t, b);
    var x, y := Elems(Approvals(t, a)), Elems(Approvals(t, b));
    SubsetCard(x + y, Elems(q.signers));
    assert |x + y| + |x * y| == |x| + |y|;
    var s :| s in x * y;
    assert s in Approvals(t, a) && s in Approvals(t, b);
  }

  // With majority mode, or any requirement over half of the configured list, every two satisfied changes
  // share an approver.
  lemma MajorityOverlaps(q: Quorum, t: Tallies, a: string, b: string)
    requires Proper(q, t) && Satisfied(q, t, a) && Satisfied(q, t, b)
    requires 2.0 * q.required > |q.signers| as real
    ensures exists s :: s in Approvals(t, a) && s in Approvals(t, b)
  {
    ElemsAtMost(q.signers);
    ApproversOf(q, t, a);
    assert 2 * Need(q) > |q.signers| by {
      assert Need(q) as real >= q.required;
    }
    Overlap(q, t, a, b);
  }

  lemma {:induction false} ElemsAtMost(s: seq<string>)
    ensures |Elems(s)| <= |s|
  {
    if s != [] {
      ElemsAtMost(s[1..]);
      assert Elems(s) == {s[0]} + Elems(s[1..]);
    }
  }

  // ---- when a change can be approved at all ----

  // Each signer of the list approves the change in turn.
  function ApproveAll(change: string, list: seq<string>): (cs: seq<Command>)
    ensures |cs| == |list| && forall i :: 0 <= i < |cs| ==> cs[i] == Approve(Some(change), Some(list[i]))
  {
    seq(|list|, i requires 0 <= i < |list| => Approve(Some(change), Some(list[i])))
  }

  lemma {:induction false} OthersLeft(q: Quorum, t: Tallies, change: string, list: seq<string>, other: string)
    requires other != change
    ensures Approvals(Run(q, t, ApproveAll(change, list)), other) == Approvals(t, other)
    decreases |list|
  {
    if list != [] {
      var c := ApproveAll(change, list)[0];
      assert ApproveAll(change, list)[1..] == ApproveAll(change, list[1..]);
      OthersLeft(q, Apply(q, t, c), change, list[1..], other);
    }
  }

  lemma HeadFresh(before: seq<string>, list: seq<string>)
    requires list != [] && NoDup(before + list)
    ensures list[0] !in before
  {
    forall j | 0 <= j < |before| ensures before[j] != list[0] {
      assert (before + list)[j] == before[j] && (before + list)[|before|] == list[0];
    }
  }

  lemma {:induction false} AllRecorded(q: Quorum, t: Tallies, change: string, list: seq<string>)
    requires change != "" && NoDup(Approvals(t, change) + list)
    requires forall s :: s in list ==> s in q.signers && s != ""
    ensures Approvals(Run(q, t, ApproveAll(change, list)), change) == Approvals(t, change) + list
    decreases |list|
  {
    var before := Approvals(t, change);
    if list == [] {
      assert before + list == before;
    } else {
      HeadFresh(before, list);
      var next := WithApproval(t, change, list[0]);
      assert list[0] in list && forall s :: s in list[1..] ==> s in list;
      assert (before + [list[0]]) + list[1..] == before + list;
      AllRecorded(q, next, change, list[1..]);
      assert ApproveAll(change, list)[1..] == ApproveAll(change, list[1..]);
    }
  }

  lemma {:induction false} OnlyRecorded(q: Quorum, t: Tallies, change: string, list: seq<string>)
    ensures forall other :: other != change ==>
      Approvals(Run(q, t, ApproveAll(change, list)), other) == Approvals(t, other)
  {
    forall other | other != change ensures Approvals(Run(q, t, ApproveAll(change, list)), other) == Approvals(t, other) {
      OthersLeft(q, t, change, list, other);
    }
  }

  // The distinct signers, in order of last appearance.
  function Distinct(s: seq<string>): (r: seq<string>)
    ensures NoDup(r) && Elems(r) == Elems(s) && forall x :: x in r <==> x in s
  {
    if s == [] then []
    else if s[0] in s[1..] then Distinct(s[1..])
    else [s[0]] + Distinct(s[1..])
  }

  // Some run approves a change exactly when the requirement is at most the number of distinct signers:
  // a signer listed twice counts towards the total but can approve once.
  lemma SatisfiableExact(q: Quorum, change: string)
    requires change != "" && "" !in q.signers
    ensures (exists cs :: Satisfied(q, Run(q, map[], cs), change)) <==> q.required <= |Elems(q.signers)| as real
  {
    var all := Distinct(q.signers);
    NoDupCard(all);
    var t: Tallies := map[];
    assert Approvals(t, change) + all == all;
    AllRecorded(q, t, change, all);
    if q.required <= |Elems(q.signers)| as real {
      assert Satisfied(q, Run(q, t, ApproveAll(change, all)), change);
    }
    forall cs | Satisfied(q, Run(q, t, cs), change) ensures q.required <= |Elems(q.signers)| as real {
      EveryRunProper(q, t, cs);
      var r := Run(q, t, cs);
      ApproversOf(q, r, change);
      SubsetCard(Elems(Approvals(r, change)), Elems(q.signers));
      assert ProperList(q, Approvals(r, change));
      NoDupCard(Approvals(r, change));
    }
  }

  lemma ApproveTwo(q: Quorum, a: string, first: seq<string>, b: string, second: seq<string>) returns (cs: seq<Command>)
    requires a != "" && b != "" && a != b && "" !in q.signers && NoDup(first) && NoDup(second)
    requires forall s :: s in first || s in second ==> s in q.signers
    ensures var t := Run(q, map[], cs); Approvals(t, a) == first && Approvals(t, b) == second
  {
    var t: Tallies := map[];
    assert Approvals(t, a) + first == first;
    AllRecorded(q, t, a, first);
    OnlyRecorded(q, t, a, first);
    var mid := Run(q, t, ApproveAll(a, first));
    assert Approvals(mid, b) + second == second;
    AllRecorded(q, mid, b, second);
    OnlyRecorded(q, mid, b, second);
    cs := ApproveAll(a, first) + ApproveAll(b, second);
    RunConcat(q, t, ApproveAll(a, first), ApproveAll(b, second));
  }

  // The bound of Overlap is exact: with no more than half of the distinct signers required, two changes can
  // both be approved with no signer in common.
  lemma DisjointRun(q: Quorum, a: string, b: string) returns (cs: seq<Command>)
    requires a != "" && b != "" && a != b && "" !in q.signers
    requires 0 <= 2 * Need(q) <= |Elems(q.signers)|
    ensures var t := Run(q, map[], cs);
      && Satisfied(q, t, a) && Satisfied(q, t, b)
      && forall s :: s in Approvals(t, a) ==> s !in Approvals(t, b)
  {
    var all := Distinct(q.signers);
    NoDupCard(all);
    var n := Need(q);
    cs := ApproveTwo(q, a, all[..n], b, all[n..2 * n]);
  }

  lemma {:induction false} RunConcat(q: Quorum, t: Tallies, a: seq<Command>, b: seq<Command>)
    ensures Run(q, t, a + b) == Run(q, Run(q, t, a), b)
    decreases |a|
  {
    if a == [] {
      assert a + b == b;
    } else {
      assert (a + b)[1..] == a[1..] + b;
      RunConcat(q, Apply(q, t, a[0]), a[1..], b);
    }
  }

  // ---- the signer object ----

  datatype Status = Status(change: string, required: real, total: nat, approvals: seq<string>, satisfied: bool)

  datatype Outcome = Outcome(ok: bool, reason: Reason, view: Option<Status>, satisfied: bool)

  function StatusOf(q: Quorum, t: Tallies, change: string): Status {
    Status(change, q.required, |q.signers|, Approvals(t, change), Satisfied(q, t, change))
  }

  class MultiSigner {
    const quorum: Quorum
    var tallies: Tallies

    ghost predicate Valid()
      reads this
    {
      Proper(quorum, tallies)
    }

    constructor (quorum: Quorum)
      ensures Valid() && this.quorum == quorum && tallies == map[]
    {
      this.quorum := quorum;
      tallies := map[];
    }

    // Rejected requests change nothing; an accepted one is the signer's only approval of the change, and
    // only the approval that completes or extends a quorum reports it.
    method Approve(change: Option<string>, signer: Option<string>) returns (r: Outcome)
      requires Valid()
      modifies this
      ensures Valid() && tallies == Apply(quorum, old(tallies), Command.Approve(change, signer))
      ensures r.ok <==>
        && change.Some? && change.value != "" && signer.Some? && signer.value != "" && signer.value in quorum.signers
        && !(change.value in old(tallies) && signer.value in old(tallies)[change.value])
      ensures !r.ok ==>
        r.reason == if Blank(change) then ChangeRequired else if Blank(signer) then SignerRequired
                    else if signer.value !in quorum.signers then NotEligible else Duplicate
      ensures r.satisfied <==> r.ok && Satisfied(quorum, tallies, change.value)
      ensures r.reason.QuorumReached? <==> r.satisfied
      ensures r.view == if Blank(change) || Blank(signer) then None else Some(StatusOf(quorum, tallies, change.value))
    {
      if Blank(change) {
        return Outcome(false, ChangeRequired, None, false);
      }
      if Blank(signer) {
        return Outcome(false, SignerRequired, None, false);
      }
      if signer.value !in quorum.signers {
        return Outcome(false, NotEligible, Some(StatusOf(quorum, tallies, change.value)), false);
      }
      var approvals := if change.value in tallies then tallies[change.value] else [];
      if signer.value in approvals {
        return Outcome(false, Duplicate, Some(StatusOf(quorum, tallies, change.value)), false);
      }
      tallies := tallies[change.value := approvals + [signer.value]];
      var view := StatusOf(quorum, tallies, change.value);
      r := Outcome(true, if view.satisfied then QuorumReached else Recorded, Some(view), view.satisfied);
    }

    method GetStatus(change: string) returns (r: Status)
      ensures r == StatusOf(quorum, tallies, change)
      ensures r.approvals == (if change in tallies then tallies[change] else []) && r.required == quorum.required
      ensures r.satisfied <==> |r.approvals| as real >= quorum.required
    {
      var approvals := if change in tallies then tallies[change] else [];
      r := Status(change, quorum.required, |quorum.signers|, approvals, |approvals| as real >= quorum.required);
    }

    method Reset(target: Option<string>)
      requires Valid()
      modifies this
      ensures Valid() && tallies == Apply(quorum, old(tallies), Command.Reset(target))
    {
      if target.None? {
        tallies := map[];
        return;
      }
      tallies := tallies - {target.value};
    }
  }
}
