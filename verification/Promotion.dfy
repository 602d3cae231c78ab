/** Moving reviewed candidate cases into the golden corpus (evals/scripts/candidate_review.py, `promote`)
    and the check that keeps the two apart (evals/release_verification.py, `validate_corpus_separation`).

    A run that succeeds replaces both manifests in one step. */
module Promotion {
  import opened Basics
  import opened Strings

  datatype Validation = Unverified | Golden | OtherStatus

  datatype Label = Pass | NeedsReview | InsufficientEvidence | Blocked

  /** An absent text field is the empty text. */
  datatype Case = Case(
    id: Text, status: Validation, expected: Option<Label>, source: Option<Text>, digest: Text, tags: seq<nat>,
    reviewer: Text, reviewedAt: Text, basis: Text)

  datatype Verdict = Pending | Approve | Reject | OtherVerdict

  datatype Decision = Decision(id: Text, verdict: Verdict, state: Option<Label>, basis: Option<Text>)

  datatype Corpus = Corpus(candidates: seq<Case>, golden: seq<Case>)

  const EMPTY := Text("")

  predicate Blank(t: Text) {
    AllSpace(t.chars)
  }

  function Stripped(t: Text): (r: Text)
    ensures r == EMPTY <==> Blank(t)
  {
    Text(Strip(t.chars))
  }

  // ---------------------------------------------------------------- lists of cases

  function Ids(cases: seq<Case>): (ids: seq<Text>)
    ensures |ids| == |cases| && forall i :: 0 <= i < |cases| ==> ids[i] == cases[i].id
  {
    if cases == [] then [] else Ids(cases[..|cases| - 1]) + [cases[|cases| - 1].id]
  }

  predicate Has(cases: seq<Case>, id: Text) {
    exists i :: 0 <= i < |cases| && cases[i].id == id
  }

  function Find(cases: seq<Case>, id: Text): (c: Case)
    requires Has(cases, id)
    ensures c in cases && c.id == id
  {
    if cases[0].id == id then cases[0] else Find(cases[1..], id)
  }

  lemma {:induction false} IdElements(cases: seq<Case>, id: Text)
    ensures id in Elements(Ids(cases)) <==> Has(cases, id)
  {
  }

  lemma {:induction false} OnlyOneHasId(cases: seq<Case>, a: Case, b: Case)
    requires Distinct(Ids(cases)) && a in cases && b in cases && a.id == b.id
    ensures a == b
  {
  }

  // ---------------------------------------------------------------- the separation check

  ghost predicate CandidateOk(c: Case) {
    c.status == Unverified && c.reviewer == EMPTY && c.reviewedAt == EMPTY
  }

  ghost predicate GoldenOk(c: Case) {
    c.status == Golden && c.reviewer != EMPTY && c.reviewedAt != EMPTY && c.digest != EMPTY
  }

  ghost predicate Apart(corpus: Corpus) {
    && Distinct(Ids(corpus.candidates)) && Distinct(Ids(corpus.golden))
    && forall id :: Has(corpus.candidates, id) ==> !Has(corpus.golden, id)
  }

  ghost predicate Separated(corpus: Corpus) {
    && Apart(corpus)
    && (forall c :: c in corpus.candidates ==> !Blank(c.id) && CandidateOk(c))
    && (forall c :: c in corpus.golden ==> !Blank(c.id) && GoldenOk(c))
  }

  datatype Metadata = Metadata(candidates: nat, golden: nat, accuracyClaimEligible: bool)

  /** The ids of a list, unless one is blank or repeated. */
  method CollectIds(cases: seq<Case>) returns (r: Outcome<set<Text>>)
    ensures r.Returns? <==> Distinct(Ids(cases)) && forall c :: c in cases ==> !Blank(c.id)
    ensures r.Returns? ==> forall id :: id in r.value <==> Has(cases, id)
  {
    var seen: set<Text> := {};
    for i := 0 to |cases|
      invariant forall k :: 0 <= k < i ==> !Blank(cases[k].id)
      invariant forall j, k :: 0 <= j < k < i ==> cases[j].id != cases[k].id
      invariant forall id :: id in seen <==> exists k :: 0 <= k < i && cases[k].id == id
    {
      var id := cases[i].id;
      if Blank(id) {
        return Raises;
      }
      if id in seen {
        assert !Distinct(Ids(cases)) by {
          var k :| 0 <= k < i && cases[k].id == id;
          assert Ids(cases)[k] == Ids(cases)[i];
        }
        return Raises;
      }
      seen := seen + {id};
    }
    return Returns(seen);
  }

  lemma {:induction false} IdsApart(corpus: Corpus, candidateIds: set<Text>, goldenIds: set<Text>)
    requires Distinct(Ids(corpus.candidates)) && Distinct(Ids(corpus.golden))
    requires forall id :: id in candidateIds <==> Has(corpus.candidates, id)
    requires forall id :: id in goldenIds <==> Has(corpus.golden, id)
    ensures candidateIds * goldenIds == {} <==> Apart(corpus)
  {
    if candidateIds * goldenIds == {} {
      forall id | Has(corpus.candidates, id) ensures !Has(corpus.golden, id) {
        assert id !in candidateIds * goldenIds;
      }
    } else {
      var id :| id in candidateIds * goldenIds;
      assert Has(corpus.candidates, id) && Has(corpus.golden, id);
    }
  }

  method ValidateCorpusSeparation(corpus: Corpus) returns (r: Outcome<Metadata>)
    ensures r.Returns? <==> Separated(corpus)
    ensures r.Returns? ==>
      r.value == Metadata(|corpus.candidates|, |corpus.golden|, corpus.golden != [])
  {
    var candidateIds := CollectIds(corpus.candidates);
    if candidateIds.Raises? {
      return Raises;
    }
    var goldenIds := CollectIds(corpus.golden);
    if goldenIds.Raises? {
      return Raises;
    }
    IdsApart(corpus, candidateIds.value, goldenIds.value);
    if candidateIds.value * goldenIds.value != {} {
      return Raises;
    }
    for i := 0 to |corpus.candidates|
      invariant forall k :: 0 <= k < i ==> CandidateOk(corpus.candidates[k])
    {
      var c := corpus.candidates[i];
      if c.status != Unverified || c.reviewer != EMPTY || c.reviewedAt != EMPTY {
        return Raises;
      }
    }
    for i := 0 to |corpus.golden|
      invariant forall k :: 0 <= k < i ==> GoldenOk(corpus.golden[k])
    {
      var c := corpus.golden[i];
      if c.status != Golden || c.reviewer == EMPTY || c.reviewedAt == EMPTY || c.digest == EMPTY {
        return Raises;
      }
    }
    return Returns(Metadata(|corpus.candidates|, |corpus.golden|, corpus.golden != []));
  }

  // ---------------------------------------------------------------- what a run would do

  function DecisionIds(decisions: seq<Decision>): (ids: seq<Text>)
    ensures |ids| == |decisions| && forall i :: 0 <= i < |decisions| ==> ids[i] == decisions[i].id
  {
    if decisions == [] then [] else DecisionIds(decisions[..|decisions| - 1]) + [decisions[|decisions| - 1].id]
  }

  predicate Approved(decisions: seq<Decision>, id: Text) {
    exists i :: 0 <= i < |decisions| && decisions[i].id == id && decisions[i].verdict == Approve
  }

  /** A decision that may be acted on: a known verdict and, for an approval, a reviewer, a label,
      a basis and a case of the corpus. */
  predicate DecisionOk(d: Decision, reviewer: Text, corpus: Corpus) {
    && d.verdict != OtherVerdict
    && (d.verdict == Approve ==>
          && !Blank(reviewer)
          && d.state.Some?
          && d.basis.Some? && !Blank(d.basis.value)
          && (Has(corpus.candidates, d.id) || Has(corpus.golden, d.id)))
  }

  predicate CanMove(c: Case) {
    c.status == Unverified && c.source.Some? && c.digest != EMPTY
  }

  /** The golden case already records this very decision. */
  predicate Records(c: Case, d: Decision, reviewer: Text) {
    c.expected == d.state && c.reviewer == Stripped(reviewer) && d.basis.Some? && c.basis == Stripped(d.basis.value)
  }

  predicate ApprovalFits(d: Decision, reviewer: Text, corpus: Corpus) {
    if Has(corpus.candidates, d.id) then CanMove(Find(corpus.candidates, d.id))
    else Has(corpus.golden, d.id) && Records(Find(corpus.golden, d.id), d, reviewer)
  }

  ghost predicate Promotable(corpus: Corpus, decisions: seq<Decision>, reviewer: Text) {
    && Distinct(DecisionIds(decisions))
    && Apart(corpus)
    && (forall d :: d in decisions ==> DecisionOk(d, reviewer, corpus))
    && (forall d :: d in decisions && d.verdict == Approve ==> ApprovalFits(d, reviewer, corpus))
  }

  function Promoted(c: Case, d: Decision, reviewer: Text, now: Text): Case
    requires d.basis.Some?
  {
    Case(c.id, Golden, d.state, c.source, c.digest, c.tags, Stripped(reviewer), now, Stripped(d.basis.value))
  }

  /** The candidates that stay. */
  function Staying(cases: seq<Case>, decisions: seq<Decision>): (r: seq<Case>)
    ensures forall c :: c in r <==> c in cases && !Approved(decisions, c.id)
  {
    if cases == [] then []
    else if Approved(decisions, cases[0].id) then Staying(cases[1..], decisions)
    else [cases[0]] + Staying(cases[1..], decisions)
  }

  predicate Moves(d: Decision, corpus: Corpus) {
    d.verdict == Approve && d.basis.Some? && Has(corpus.candidates, d.id)
  }

  /** The candidates that move, in the order of the decisions. */
  function Moving(corpus: Corpus, decisions: seq<Decision>, reviewer: Text, now: Text): seq<Case> {
    if decisions == [] then []
    else
      var before, d := Moving(corpus, decisions[..|decisions| - 1], reviewer, now), decisions[|decisions| - 1];
      if Moves(d, corpus) then before + [Promoted(Find(corpus.candidates, d.id), d, reviewer, now)] else before
  }

  predicate ById(a: Case, b: Case) {
    Before(a.id.chars, b.id.chars)
  }

  function After(corpus: Corpus, decisions: seq<Decision>, reviewer: Text, now: Text): Corpus {
    Corpus(
      Staying(corpus.candidates, decisions),
      StableSort(corpus.golden + Moving(corpus, decisions, reviewer, now), ById))
  }

  // ---------------------------------------------------------------- the run

  function RemoveFirst(cases: seq<Case>, c: Case): seq<Case> {
    if cases == [] then []
    else if cases[0] == c then cases[1..]
    else [cases[0]] + RemoveFirst(cases[1..], c)
  }

  lemma {:induction false} ApprovedSnoc(decisions: seq<Decision>, d: Decision, id: Text)
    ensures Approved(decisions + [d], id) <==> Approved(decisions, id) || (d.id == id && d.verdict == Approve)
  {
    var more := decisions + [d];
    if Approved(decisions, id) {
      var i :| 0 <= i < |decisions| && decisions[i].id == id && decisions[i].verdict == Approve;
      assert more[i] == decisions[i];
    }
    assert more[|decisions|] == d;
  }

  lemma {:induction false} OthersStay(cases: seq<Case>, decisions: seq<Decision>, d: Decision)
    requires d.verdict != Approve || !Has(cases, d.id)
    ensures Staying(cases, decisions + [d]) == Staying(cases, decisions)
  {
    if cases != [] {
      ApprovedSnoc(decisions, d, cases[0].id);
      assert forall i :: 0 <= i < |cases[1..]| ==> cases[1..][i] == cases[i + 1];
      OthersStay(cases[1..], decisions, d);
    }
  }

  lemma {:induction false} TailIds(cases: seq<Case>)
    requires cases != [] && Distinct(Ids(cases))
    ensures Distinct(Ids(cases[1..])) && !Has(cases[1..], cases[0].id)
  {
    var rest := cases[1..];
    assert forall i :: 0 <= i < |rest| ==> Ids(rest)[i] == Ids(cases)[i + 1];
    assert Ids(cases)[0] == cases[0].id;
  }

  lemma {:induction false} OneLeaves(cases: seq<Case>, decisions: seq<Decision>, d: Decision, c: Case)
    requires Distinct(Ids(cases)) && c in cases && c.id == d.id && d.verdict == Approve && !Approved(decisions, d.id)
    ensures RemoveFirst(Staying(cases, decisions), c) == Staying(cases, decisions + [d])
  {
    var rest := cases[1..];
    ApprovedSnoc(decisions, d, cases[0].id);
    TailIds(cases);
    if cases[0] == c {
      OthersStay(rest, decisions, d);
      StayingHead(cases, decisions);
    } else {
      assert c in rest;
      assert Has(rest, c.id);
      OneLeaves(rest, decisions, d, c);
      if !Approved(decisions, cases[0].id) {
        StayingHead(cases, decisions);
      }
    }
  }

  lemma StayingHead(cases: seq<Case>, decisions: seq<Decision>)
    requires cases != [] && !Approved(decisions, cases[0].id)
    ensures Staying(cases, decisions) != [] && Staying(cases, decisions)[0] == cases[0]
    ensures Staying(cases, decisions)[1..] == Staying(cases[1..], decisions)
  {
  }

  function ApprovedOf(decisions: seq<Decision>): (r: seq<Decision>)
    ensures forall d :: d in r <==> d in decisions && d.verdict == Approve
  {
    if decisions == [] then []
    else
      var before, d := ApprovedOf(decisions[..|decisions| - 1]), decisions[|decisions| - 1];
      if d.verdict == Approve then before + [d] else before
  }

  lemma {:induction false} ApprovedOfSame(decisions: seq<Decision>, id: Text)
    ensures Approved(ApprovedOf(decisions), id) <==> Approved(decisions, id)
  {
    if decisions != [] {
      var init, d := decisions[..|decisions| - 1], decisions[|decisions| - 1];
      ApprovedOfSame(init, id);
      ApprovedSnoc(init, d, id);
      ApprovedSnoc(ApprovedOf(init), d, id);
      assert decisions == init + [d];
    }
  }

  lemma {:induction false} StayingSame(cases: seq<Case>, a: seq<Decision>, b: seq<Decision>)
    requires forall id :: Approved(a, id) <==> Approved(b, id)
    ensures Staying(cases, a) == Staying(cases, b)
  {
    if cases != [] {
      StayingSame(cases[1..], a, b);
    }
  }

  lemma {:induction false} MovingSame(corpus: Corpus, decisions: seq<Decision>, reviewer: Text, now: Text)
    ensures Moving(corpus, ApprovedOf(decisions), reviewer, now) == Moving(corpus, decisions, reviewer, now)
  {
    if decisions != [] {
      var init, d := decisions[..|decisions| - 1], decisions[|decisions| - 1];
      MovingSame(corpus, init, reviewer, now);
      if d.verdict == Approve {
        assert (ApprovedOf(init) + [d])[..|ApprovedOf(init)|] == ApprovedOf(init);
      }
    }
  }

  lemma {:induction false} IdBefore(decisions: seq<Decision>, d: Decision)
    requires decisions != [] && Distinct(DecisionIds(decisions)) && d in decisions[..|decisions| - 1]
    ensures d.id != decisions[|decisions| - 1].id
  {
    var k: nat :| k < |decisions| - 1 && decisions[k] == d;
    assert DecisionIds(decisions)[k] == d.id;
  }

  lemma {:induction false} ApprovedDistinct(decisions: seq<Decision>)
    requires Distinct(DecisionIds(decisions))
    ensures Distinct(DecisionIds(ApprovedOf(decisions)))
  {
    if decisions != [] {
      var init, d := decisions[..|decisions| - 1], decisions[|decisions| - 1];
      assert DecisionIds(decisions)[..|decisions| - 1] == DecisionIds(init);
      ApprovedDistinct(init);
      if d.verdict == Approve {
        var before := ApprovedOf(init);
        forall i | 0 <= i < |before| ensures before[i].id != d.id {
          IdBefore(decisions, before[i]);
        }
      }
    }
  }

  /** The two manifest files. */
  class Manifests {
    var candidates: seq<Case>
    var candidateCount: nat
    var golden: seq<Case>

    function Contents(): Corpus
      reads this
    {
      Corpus(candidates, golden)
    }

    constructor (corpus: Corpus, count: nat)
      ensures Contents() == corpus && candidateCount == count
    {
      candidates, candidateCount, golden := corpus.candidates, count, corpus.golden;
    }

    /** A refused run writes neither file; 2 is its exit code. */
    method Promote(decisions: seq<Decision>, reviewer: Text, now: Text, underCi: bool) returns (code: nat)
      modifies this
      ensures code == 0 <==> !underCi && old(Promotable(Contents(), decisions, reviewer))
      ensures code == 0 ==>
        Contents() == old(After(Contents(), decisions, reviewer, now)) && candidateCount == |candidates|
      ensures code != 0 ==> code == 2 && Contents() == old(Contents()) && candidateCount == old(candidateCount)
    {
      if underCi {
        return 2;
      }
      var corpus := Contents();
      var idsOk := CheckIds(corpus, decisions);
      var approved := CheckDecisions(corpus, decisions, reviewer);
      if !idsOk || approved.Raises? {
        return 2;
      }
      ChecksReadyToMove(corpus, decisions, reviewer);
      AllFit(corpus, approved.value, reviewer);
      var moved := MoveApproved(corpus, approved.value, reviewer, now);
      if moved.Raises? {
        return 2;
      }
      AllMoved(corpus, approved.value, reviewer, now, moved.value);
      OnlyApprovalsMatter(corpus, decisions, reviewer, now);
      candidates, candidateCount := moved.value.candidates, |moved.value.candidates|;
      golden := StableSort(moved.value.golden, ById);
      code := 0;
    }
  }

  method CheckIds(corpus: Corpus, decisions: seq<Decision>) returns (ok: bool)
    ensures ok <==> Distinct(DecisionIds(decisions)) && Apart(corpus)
  {
    DistinctBySize(DecisionIds(decisions));
    DistinctBySize(Ids(corpus.candidates));
    DistinctBySize(Ids(corpus.golden));
    ApartByIds(corpus);
    var candidateIds, goldenIds := Elements(Ids(corpus.candidates)), Elements(Ids(corpus.golden));
    return |Elements(DecisionIds(decisions))| == |decisions|
      && |candidateIds| == |corpus.candidates| && |goldenIds| == |corpus.golden| && candidateIds * goldenIds == {};
  }

  method CheckDecisions(corpus: Corpus, decisions: seq<Decision>, reviewer: Text) returns (r: Outcome<seq<Decision>>)
    ensures r.Returns? <==> forall i :: 0 <= i < |decisions| ==> DecisionOk(decisions[i], reviewer, corpus)
    ensures r.Returns? ==> r.value == ApprovedOf(decisions)
  {
    var approved: seq<Decision> := [];
    for i := 0 to |decisions|
      invariant forall k :: 0 <= k < i ==> DecisionOk(decisions[k], reviewer, corpus)
      invariant approved == ApprovedOf(decisions[..i])
    {
      var d := decisions[i];
      if !DecisionOk(d, reviewer, corpus) {
        return Raises;
      }
      assert decisions[..i + 1][..i] == decisions[..i];
      if d.verdict == Approve {
        approved := approved + [d];
      }
    }
    assert decisions[..|decisions|] == decisions;
    return Returns(approved);
  }

  lemma {:induction false} ApartByIds(corpus: Corpus)
    ensures Apart(corpus) <==>
      && Distinct(Ids(corpus.candidates)) && Distinct(Ids(corpus.golden))
      && Elements(Ids(corpus.candidates)) * Elements(Ids(corpus.golden)) == {}
  {
    forall id ensures id in Elements(Ids(corpus.candidates)) <==> Has(corpus.candidates, id) {
      IdElements(corpus.candidates, id);
    }
    forall id ensures id in Elements(Ids(corpus.golden)) <==> Has(corpus.golden, id) {
      IdElements(corpus.golden, id);
    }
    if Elements(Ids(corpus.candidates)) * Elements(Ids(corpus.golden)) == {} {
      forall id | Has(corpus.candidates, id) ensures !Has(corpus.golden, id) {
        assert id !in Elements(Ids(corpus.candidates)) * Elements(Ids(corpus.golden));
      }
    }
  }

  ghost predicate ReadyToMove(corpus: Corpus, approved: seq<Decision>) {
    && Distinct(DecisionIds(approved)) && Distinct(Ids(corpus.candidates))
    && forall i :: 0 <= i < |approved| ==>
         && approved[i].verdict == Approve && approved[i].basis.Some?
         && (Has(corpus.candidates, approved[i].id) || Has(corpus.golden, approved[i].id))
  }

  /** Where the lists stand after the first `k` approvals; the golden list is still unsorted. */
  ghost predicate MovedUpTo(corpus: Corpus, approved: seq<Decision>, k: nat, reviewer: Text, now: Text, lists: Corpus)
    requires k <= |approved|
  {
    && lists.candidates == Staying(corpus.candidates, approved[..k])
    && lists.golden == corpus.golden + Moving(corpus, approved[..k], reviewer, now)
  }

  lemma {:induction false} NoneMoved(corpus: Corpus, approved: seq<Decision>, reviewer: Text, now: Text)
    ensures MovedUpTo(corpus, approved, 0, reviewer, now, corpus)
  {
    NobodyLeaves(corpus.candidates, []);
    assert approved[..0] == [];
    ConcatEmpty(corpus.golden);
  }

  lemma {:induction false} AllMoved(corpus: Corpus, approved: seq<Decision>, reviewer: Text, now: Text, lists: Corpus)
    requires MovedUpTo(corpus, approved, |approved|, reviewer, now, lists)
    ensures lists.candidates == Staying(corpus.candidates, approved)
    ensures lists.golden == corpus.golden + Moving(corpus, approved, reviewer, now)
  {
    assert approved[..|approved|] == approved;
  }

  /** The lists after one approval. */
  function Lists(corpus: Corpus, d: Decision, reviewer: Text, now: Text, lists: Corpus): Corpus
    requires d.basis.Some?
  {
    if Has(corpus.candidates, d.id) then
      var c := Find(corpus.candidates, d.id);
      Corpus(RemoveFirst(lists.candidates, c), lists.golden + [Promoted(c, d, reviewer, now)])
    else lists
  }

  method MoveOne(corpus: Corpus, d: Decision, reviewer: Text, now: Text, lists: Corpus) returns (r: Outcome<Corpus>)
    requires d.basis.Some? && (Has(corpus.candidates, d.id) || Has(corpus.golden, d.id))
    ensures r.Returns? <==> ApprovalFits(d, reviewer, corpus)
    ensures r.Returns? ==> r.value == Lists(corpus, d, reviewer, now, lists)
  {
    if Has(corpus.candidates, d.id) {
      var c := Find(corpus.candidates, d.id);
      if !CanMove(c) {
        return Raises;
      }
      return Returns(Corpus(RemoveFirst(lists.candidates, c), lists.golden + [Promoted(c, d, reviewer, now)]));
    }
    if !Records(Find(corpus.golden, d.id), d, reviewer) {
      return Raises;
    }
    return Returns(lists);
  }

  ghost predicate FitUpTo(corpus: Corpus, approved: seq<Decision>, k: nat, reviewer: Text)
    requires k <= |approved|
  {
    k == 0 || (FitUpTo(corpus, approved, k - 1, reviewer) && ApprovalFits(approved[k - 1], reviewer, corpus))
  }

  lemma {:induction false} FitAt(corpus: Corpus, approved: seq<Decision>, j: nat, k: nat, reviewer: Text)
    requires j < k <= |approved| && FitUpTo(corpus, approved, k, reviewer)
    ensures ApprovalFits(approved[j], reviewer, corpus)
  {
    if j < k - 1 {
      FitAt(corpus, approved, j, k - 1, reviewer);
    }
  }

  lemma {:induction false} FitByAll(corpus: Corpus, approved: seq<Decision>, k: nat, reviewer: Text)
    requires k <= |approved| && forall j :: 0 <= j < k ==> ApprovalFits(approved[j], reviewer, corpus)
    ensures FitUpTo(corpus, approved, k, reviewer)
  {
    if k > 0 {
      FitByAll(corpus, approved, k - 1, reviewer);
    }
  }

  lemma {:induction false} AllFit(corpus: Corpus, approved: seq<Decision>, reviewer: Text)
    ensures FitUpTo(corpus, approved, |approved|, reviewer)
      <==> forall d :: d in approved ==> ApprovalFits(d, reviewer, corpus)
  {
    if FitUpTo(corpus, approved, |approved|, reviewer) {
      forall d | d in approved ensures ApprovalFits(d, reviewer, corpus) {
        var j :| 0 <= j < |approved| && approved[j] == d;
        FitAt(corpus, approved, j, |approved|, reviewer);
      }
    } else if forall d :: d in approved ==> ApprovalFits(d, reviewer, corpus) {
      FitByAll(corpus, approved, |approved|, reviewer);
    }
  }

  lemma {:induction false} Misfit(corpus: Corpus, approved: seq<Decision>, k: nat, reviewer: Text)
    requires k < |approved| && !ApprovalFits(approved[k], reviewer, corpus)
    ensures !FitUpTo(corpus, approved, |approved|, reviewer)
  {
    if FitUpTo(corpus, approved, |approved|, reviewer) {
      FitAt(corpus, approved, k, |approved|, reviewer);
    }
  }

  method MoveApproved(corpus: Corpus, approved: seq<Decision>, reviewer: Text, now: Text) returns (r: Outcome<Corpus>)
    requires ReadyToMove(corpus, approved)
    ensures r.Returns? <==> FitUpTo(corpus, approved, |approved|, reviewer)
    ensures r.Returns? ==> MovedUpTo(corpus, approved, |approved|, reviewer, now, r.value)
  {
    var lists := corpus;
    NoneMoved(corpus, approved, reviewer, now);
    for k := 0 to |approved|
      invariant FitUpTo(corpus, approved, k, reviewer)
      invariant MovedUpTo(corpus, approved, k, reviewer, now, lists)
    {
      NextMove(corpus, approved, k, reviewer, now, lists);
      r := MoveOne(corpus, approved[k], reviewer, now, lists);
      if r.Raises? {
        Misfit(corpus, approved, k, reviewer);
        return;
      }
      lists := r.value;
    }
    return Returns(lists);
  }

  /** Only the approvals among the decisions matter. */
  lemma {:induction false} OnlyApprovalsMatter(corpus: Corpus, decisions: seq<Decision>, reviewer: Text, now: Text)
    ensures Staying(corpus.candidates, ApprovedOf(decisions)) == Staying(corpus.candidates, decisions)
    ensures Moving(corpus, ApprovedOf(decisions), reviewer, now) == Moving(corpus, decisions, reviewer, now)
  {
    forall id ensures Approved(ApprovedOf(decisions), id) <==> Approved(decisions, id) {
      ApprovedOfSame(decisions, id);
    }
    StayingSame(corpus.candidates, ApprovedOf(decisions), decisions);
    MovingSame(corpus, decisions, reviewer, now);
  }

  lemma {:induction false} ChecksReadyToMove(corpus: Corpus, decisions: seq<Decision>, reviewer: Text)
    requires Distinct(DecisionIds(decisions)) && Apart(corpus)
    requires forall i :: 0 <= i < |decisions| ==> DecisionOk(decisions[i], reviewer, corpus)
    ensures ReadyToMove(corpus, ApprovedOf(decisions))
  {
    ApprovedDistinct(decisions);
    var approved := ApprovedOf(decisions);
    forall i | 0 <= i < |approved| ensures approved[i].verdict == Approve && DecisionOk(approved[i], reviewer, corpus) {
      assert approved[i] in decisions;
    }
  }

  lemma {:induction false} NobodyLeaves(cases: seq<Case>, decisions: seq<Decision>)
    requires forall c :: c in cases ==> !Approved(decisions, c.id)
    ensures Staying(cases, decisions) == cases
  {
    if cases != [] {
      NobodyLeaves(cases[1..], decisions);
      assert cases == [cases[0]] + cases[1..];
    }
  }

  lemma {:induction false} NextMove(
    corpus: Corpus, approved: seq<Decision>, k: nat, reviewer: Text, now: Text, lists: Corpus)
    requires k < |approved| && approved[k].verdict == Approve && approved[k].basis.Some?
    requires Distinct(DecisionIds(approved)) && Distinct(Ids(corpus.candidates))
    requires MovedUpTo(corpus, approved, k, reviewer, now, lists)
    ensures MovedUpTo(corpus, approved, k + 1, reviewer, now, Lists(corpus, approved[k], reviewer, now, lists))
  {
    var d := approved[k];
    assert approved[..k + 1] == approved[..k] + [d];
    assert approved[..k + 1][..k] == approved[..k];
    if Has(corpus.candidates, d.id) {
      assert !Approved(approved[..k], d.id) by {
        forall i | 0 <= i < k ensures approved[..k][i].id != d.id {
          assert DecisionIds(approved)[i] != DecisionIds(approved)[k];
        }
      }
      var c := Find(corpus.candidates, d.id);
      OneLeaves(corpus.candidates, approved[..k], d, c);
      ConcatAssoc(corpus.golden, Moving(corpus, approved[..k], reviewer, now), [Promoted(c, d, reviewer, now)]);
    } else {
      OthersStay(corpus.candidates, approved[..k], d);
    }
  }

  // ---------------------------------------------------------------- what a run keeps

  lemma {:induction false} IdOrder()
    ensures Ordering(ById)
  {
    forall a: Case, b: Case ensures ById(a, b) || ById(b, a) {
      BeforeIsTotal(a.id.chars, b.id.chars);
    }
    forall a: Case, b: Case, c: Case | ById(a, b) && ById(b, c) ensures ById(a, c) {
      BeforeIsTransitive(a.id.chars, b.id.chars, c.id.chars);
    }
  }

  lemma {:induction false} SortedIsUnchanged(s: seq<Case>)
    requires SortedBy(s, ById)
    ensures StableSort(s, ById) == s
  {
    if s != [] {
      SortedIsUnchanged(s[1..]);
      assert s == [s[0]] + s[1..];
      assert s[1..] == [] || s[1..][0] == s[1];
    }
  }

  /** The golden list after the run holds the old golden cases and the ones that moved. */
  lemma {:induction false} GoldenAfter(corpus: Corpus, decisions: seq<Decision>, reviewer: Text, now: Text)
    ensures var golden := After(corpus, decisions, reviewer, now).golden;
      && SortedBy(golden, ById)
      && |golden| == |corpus.golden| + |Moving(corpus, decisions, reviewer, now)|
      && forall c :: c in golden <==> c in corpus.golden || c in Moving(corpus, decisions, reviewer, now)
  {
    var all := corpus.golden + Moving(corpus, decisions, reviewer, now);
    IdOrder();
    SortIsPermutation(all, ById);
    forall c ensures c in StableSort(all, ById) <==> c in all {
      assert c in multiset(StableSort(all, ById)) <==> c in multiset(all);
    }
  }

  lemma {:induction false} MovingMembers(corpus: Corpus, decisions: seq<Decision>, reviewer: Text, now: Text, c: Case)
    ensures c in Moving(corpus, decisions, reviewer, now) <==>
      exists d :: d in decisions && Moves(d, corpus) && c == Promoted(Find(corpus.candidates, d.id), d, reviewer, now)
  {
    if decisions != [] {
      MovingMembers(corpus, decisions[..|decisions| - 1], reviewer, now, c);
      assert decisions == decisions[..|decisions| - 1] + [decisions[|decisions| - 1]];
    }
  }

  lemma {:induction false} MovingIds(corpus: Corpus, decisions: seq<Decision>, reviewer: Text, now: Text, id: Text)
    requires forall d :: d in decisions ==> DecisionOk(d, reviewer, corpus)
    ensures Has(Moving(corpus, decisions, reviewer, now), id) <==> Has(corpus.candidates, id) && Approved(decisions, id)
  {
    var moving := Moving(corpus, decisions, reviewer, now);
    if Has(moving, id) {
      var i :| 0 <= i < |moving| && moving[i].id == id;
      MovingMembers(corpus, decisions, reviewer, now, moving[i]);
      var d :| d in decisions && Moves(d, corpus)
        && moving[i] == Promoted(Find(corpus.candidates, d.id), d, reviewer, now);
      var k :| 0 <= k < |decisions| && decisions[k] == d;
    }
    if Has(corpus.candidates, id) && Approved(decisions, id) {
      var k :| 0 <= k < |decisions| && decisions[k].id == id && decisions[k].verdict == Approve;
      var d := decisions[k];
      assert d in decisions && DecisionOk(d, reviewer, corpus);
      var c := Promoted(Find(corpus.candidates, d.id), d, reviewer, now);
      MovingMembers(corpus, decisions, reviewer, now, c);
      assert c in moving;
    }
  }

  lemma {:induction false} MovingDistinct(corpus: Corpus, decisions: seq<Decision>, reviewer: Text, now: Text)
    requires Distinct(DecisionIds(decisions))
    requires forall d :: d in decisions ==> DecisionOk(d, reviewer, corpus)
    ensures Distinct(Ids(Moving(corpus, decisions, reviewer, now)))
  {
    if decisions != [] {
      var init, d := decisions[..|decisions| - 1], decisions[|decisions| - 1];
      assert DecisionIds(decisions)[..|init|] == DecisionIds(init);
      MovingDistinct(corpus, init, reviewer, now);
      MovingIds(corpus, init, reviewer, now, d.id);
      assert !Approved(init, d.id) by {
        forall i | 0 <= i < |init| ensures init[i].id != d.id {
          assert DecisionIds(decisions)[i] == init[i].id;
        }
      }
    }
  }

  lemma {:induction false} StayingIds(cases: seq<Case>, decisions: seq<Decision>, id: Text)
    ensures Has(Staying(cases, decisions), id) <==> Has(cases, id) && !Approved(decisions, id)
  {
    HasMember(cases, id);
    HasMember(Staying(cases, decisions), id);
  }

  lemma {:induction false} StayingDistinct(cases: seq<Case>, decisions: seq<Decision>)
    requires Distinct(Ids(cases))
    ensures Distinct(Ids(Staying(cases, decisions)))
  {
    if cases != [] {
      var rest := cases[1..];
      TailIds(cases);
      StayingDistinct(rest, decisions);
      StayingIds(rest, decisions, cases[0].id);
      if !Approved(decisions, cases[0].id) {
        OnItsOwn(cases[0]);
        JoinedDistinct([cases[0]], Staying(rest, decisions));
      }
    }
  }

  lemma {:induction false} OnItsOwn(c: Case)
    ensures Distinct(Ids([c])) && forall id :: Has([c], id) <==> id == c.id
  {
    assert [c][0] == c;
  }

  lemma {:induction false} HasMember(cases: seq<Case>, id: Text)
    ensures Has(cases, id) <==> exists c :: c in cases && c.id == id
  {
    if c :| c in cases && c.id == id {
      var i :| 0 <= i < |cases| && cases[i] == c;
    }
  }

  /** Lists with the same members, as long as each other, repeat no id together. */
  lemma {:induction false} SameIdsDistinct(a: seq<Case>, b: seq<Case>)
    requires |a| == |b| && (forall c :: c in a <==> c in b) && Distinct(Ids(a))
    ensures Distinct(Ids(b))
  {
    DistinctBySize(Ids(a));
    DistinctBySize(Ids(b));
    forall id ensures id in Elements(Ids(a)) <==> id in Elements(Ids(b)) {
      IdElements(a, id);
      IdElements(b, id);
      HasMember(a, id);
      HasMember(b, id);
    }
    assert Elements(Ids(a)) == Elements(Ids(b));
  }

  lemma {:induction false} JoinedDistinct(a: seq<Case>, b: seq<Case>)
    requires Distinct(Ids(a)) && Distinct(Ids(b)) && forall id :: Has(a, id) ==> !Has(b, id)
    ensures Distinct(Ids(a + b))
  {
    forall i, j | 0 <= i < j < |a + b| ensures (a + b)[i].id != (a + b)[j].id {
      if i < |a| <= j {
        assert Has(a, a[i].id) && Has(b, b[j - |a|].id);
      } else if j < |a| {
        assert Ids(a)[i] != Ids(a)[j];
      } else {
        assert Ids(b)[i - |a|] != Ids(b)[j - |a|];
      }
    }
  }

  /** After a run the two manifests are still apart and hold the same ids as before. */
  lemma {:induction false} IdsAreKept(corpus: Corpus, decisions: seq<Decision>, reviewer: Text, now: Text)
    requires Promotable(corpus, decisions, reviewer)
    ensures var after := After(corpus, decisions, reviewer, now);
      && Apart(after)
      && (forall id :: Has(after.candidates, id) <==> Has(corpus.candidates, id) && !Approved(decisions, id))
      && (forall id ::
           Has(after.golden, id) <==> Has(corpus.golden, id) || (Has(corpus.candidates, id) && Approved(decisions, id)))
  {
    var after, moving := After(corpus, decisions, reviewer, now), Moving(corpus, decisions, reviewer, now);
    StayingDistinct(corpus.candidates, decisions);
    forall id ensures Has(after.candidates, id) <==> Has(corpus.candidates, id) && !Approved(decisions, id) {
      StayingIds(corpus.candidates, decisions, id);
    }
    MovingDistinct(corpus, decisions, reviewer, now);
    GoldenAfter(corpus, decisions, reviewer, now);
    forall id ensures Has(moving, id) <==> Has(corpus.candidates, id) && Approved(decisions, id) {
      MovingIds(corpus, decisions, reviewer, now, id);
    }
    JoinedDistinct(corpus.golden, moving);
    SameIdsDistinct(corpus.golden + moving, after.golden);
    forall id ensures Has(after.golden, id) <==> Has(corpus.golden, id) || Has(moving, id) {
      HasMember(after.golden, id);
      HasMember(corpus.golden, id);
      HasMember(moving, id);
    }
  }

  lemma {:induction false} IdCount(corpus: Corpus)
    requires Apart(corpus)
    ensures |Elements(Ids(corpus.candidates)) + Elements(Ids(corpus.golden))| == |corpus.candidates| + |corpus.golden|
  {
    DistinctBySize(Ids(corpus.candidates));
    DistinctBySize(Ids(corpus.golden));
    ApartByIds(corpus);
  }

  /** The union of the ids and the number of cases are what they were. */
  lemma {:induction false} CasesAreConserved(corpus: Corpus, decisions: seq<Decision>, reviewer: Text, now: Text)
    requires Promotable(corpus, decisions, reviewer)
    ensures var after := After(corpus, decisions, reviewer, now);
      && Elements(Ids(after.candidates)) + Elements(Ids(after.golden))
           == Elements(Ids(corpus.candidates)) + Elements(Ids(corpus.golden))
      && |after.candidates| + |after.golden| == |corpus.candidates| + |corpus.golden|
  {
    var after := After(corpus, decisions, reviewer, now);
    IdsAreKept(corpus, decisions, reviewer, now);
    var was := Elements(Ids(corpus.candidates)) + Elements(Ids(corpus.golden));
    var remaining := Elements(Ids(after.candidates)) + Elements(Ids(after.golden));
    forall id ensures id in was <==> id in remaining {
      IdElements(corpus.candidates, id);
      IdElements(corpus.golden, id);
      IdElements(after.candidates, id);
      IdElements(after.golden, id);
    }
    assert was == remaining;
    IdCount(corpus);
    IdCount(after);
  }

  /** Every case that moved keeps its provenance and carries the decision that moved it. */
  lemma {:induction false} MovedCase(corpus: Corpus, decisions: seq<Decision>, reviewer: Text, now: Text, c: Case)
    returns (was: Case, d: Decision)
    requires Promotable(corpus, decisions, reviewer) && c in Moving(corpus, decisions, reviewer, now)
    ensures was in corpus.candidates && d in decisions && d.verdict == Approve && d.id == c.id
    ensures was.status == Unverified && was.source.Some? && was.digest.chars != ""
    ensures c.id == was.id && c.source == was.source && c.digest == was.digest && c.tags == was.tags
    ensures c.status == Golden && c.expected == d.state && c.expected.Some? && c.reviewedAt == now
    ensures c.reviewer.chars == Strip(reviewer.chars) && c.reviewer.chars != ""
    ensures d.basis.Some? && c.basis.chars == Strip(d.basis.value.chars) && c.basis.chars != ""
  {
    MovingMembers(corpus, decisions, reviewer, now, c);
    d :| d in decisions && Moves(d, corpus) && c == Promoted(Find(corpus.candidates, d.id), d, reviewer, now);
    was := Find(corpus.candidates, d.id);
    assert DecisionOk(d, reviewer, corpus) && ApprovalFits(d, reviewer, corpus);
  }

  /** A run keeps everything the separation check asks for. */
  lemma {:induction false} SeparationIsKept(corpus: Corpus, decisions: seq<Decision>, reviewer: Text, now: Text)
    requires Promotable(corpus, decisions, reviewer) && Separated(corpus) && now != EMPTY
    ensures Separated(After(corpus, decisions, reviewer, now))
  {
    var after := After(corpus, decisions, reviewer, now);
    IdsAreKept(corpus, decisions, reviewer, now);
    GoldenAfter(corpus, decisions, reviewer, now);
    forall c | c in after.golden ensures !Blank(c.id) && GoldenOk(c) {
      if c !in corpus.golden {
        var was, d := MovedCase(corpus, decisions, reviewer, now, c);
      }
    }
  }

  /** In the new golden list every approved case records its decision. */
  lemma {:induction false} ApprovalIsRecorded(
    corpus: Corpus, decisions: seq<Decision>, reviewer: Text, now: Text, d: Decision)
    requires Promotable(corpus, decisions, reviewer) && d in decisions && d.verdict == Approve
    ensures var after := After(corpus, decisions, reviewer, now);
      !Has(after.candidates, d.id) && Has(after.golden, d.id) && Records(Find(after.golden, d.id), d, reviewer)
  {
    var after := After(corpus, decisions, reviewer, now);
    IdsAreKept(corpus, decisions, reviewer, now);
    GoldenAfter(corpus, decisions, reviewer, now);
    var k :| 0 <= k < |decisions| && decisions[k] == d;
    assert Approved(decisions, d.id) && DecisionOk(d, reviewer, corpus) && ApprovalFits(d, reviewer, corpus);
    var c := if Has(corpus.candidates, d.id) then Promoted(Find(corpus.candidates, d.id), d, reviewer, now)
             else Find(corpus.golden, d.id);
    MovingMembers(corpus, decisions, reviewer, now, c);
    assert c in after.golden;
    OnlyOneHasId(after.golden, c, Find(after.golden, d.id));
  }

  lemma {:induction false} NothingMoves(corpus: Corpus, decisions: seq<Decision>, reviewer: Text, now: Text)
    requires forall d :: d in decisions ==> !Moves(d, corpus)
    ensures Moving(corpus, decisions, reviewer, now) == []
  {
    if decisions != [] {
      NothingMoves(corpus, decisions[..|decisions| - 1], reviewer, now);
    }
  }

  /** Running the same decisions again, at any later time, succeeds and changes nothing. */
  lemma {:induction false} RerunChangesNothing(
    corpus: Corpus, decisions: seq<Decision>, reviewer: Text, now: Text, later: Text)
    requires Promotable(corpus, decisions, reviewer)
    ensures Promotable(After(corpus, decisions, reviewer, now), decisions, reviewer)
    ensures var after := After(corpus, decisions, reviewer, now);
      After(after, decisions, reviewer, later) == after
  {
    var after := After(corpus, decisions, reviewer, now);
    IdsAreKept(corpus, decisions, reviewer, now);
    forall d | d in decisions && d.verdict == Approve
      ensures !Has(after.candidates, d.id) && ApprovalFits(d, reviewer, after) && DecisionOk(d, reviewer, after)
    {
      assert DecisionOk(d, reviewer, corpus);
      ApprovalIsRecorded(corpus, decisions, reviewer, now, d);
    }
    NothingMoves(after, decisions, reviewer, later);
    NobodyLeaves(after.candidates, decisions);
    GoldenAfter(corpus, decisions, reviewer, now);
    ConcatEmpty(after.golden);
    SortedIsUnchanged(after.golden);
  }

  // ---------------------------------------------------------------- what a promotion accepts, in terms of the fields

  /** All ids of both lists differ. */
  ghost predicate AllIdsDiffer(corpus: Corpus) {
    && (forall i, j :: 0 <= i < j < |corpus.candidates| ==> corpus.candidates[i].id != corpus.candidates[j].id)
    && (forall i, j :: 0 <= i < j < |corpus.golden| ==> corpus.golden[i].id != corpus.golden[j].id)
    && (forall c, g :: c in corpus.candidates && g in corpus.golden ==> c.id != g.id)
  }

  /** A candidate that was never reviewed, with a source and a digest. */
  ghost predicate Movable(corpus: Corpus, d: Decision, c: Case) {
    c in corpus.candidates && c.id == d.id && c.status.Unverified? && c.source != None && c.digest.chars != ""
  }

  /** A golden case that records the label, the reviewer and the basis of the decision. */
  ghost predicate AlreadyMoved(corpus: Corpus, d: Decision, reviewer: Text, g: Case) {
    && g in corpus.golden && g.id == d.id && g.expected == d.state && g.reviewer.chars == Strip(reviewer.chars)
    && d.basis.Some? && g.basis.chars == Strip(d.basis.value.chars)
  }

  ghost predicate MayBeApproved(corpus: Corpus, d: Decision, reviewer: Text) {
    && Strip(reviewer.chars) != "" && d.state != None && d.basis != None && Strip(d.basis.value.chars) != ""
    && ((exists c :: Movable(corpus, d, c)) || (exists g :: AlreadyMoved(corpus, d, reviewer, g)))
  }

  lemma {:induction false} ApartOfIds(corpus: Corpus)
    ensures Apart(corpus) <==> AllIdsDiffer(corpus)
  {
    if Apart(corpus) {
      forall c, g | c in corpus.candidates && g in corpus.golden ensures c.id != g.id {
        HasOfCases(corpus.candidates, c.id);
        HasOfCases(corpus.golden, g.id);
      }
    }
    if AllIdsDiffer(corpus) {
      forall id | Has(corpus.candidates, id) ensures !Has(corpus.golden, id) {
        HasOfCases(corpus.candidates, id);
        HasOfCases(corpus.golden, id);
      }
    }
    assert Distinct(Ids(corpus.candidates)) ==> forall i, j :: 0 <= i < j < |corpus.candidates| ==>
      Ids(corpus.candidates)[i] != Ids(corpus.candidates)[j];
    assert Distinct(Ids(corpus.golden)) ==> forall i, j :: 0 <= i < j < |corpus.golden| ==>
      Ids(corpus.golden)[i] != Ids(corpus.golden)[j];
  }

  lemma {:induction false} HasOfCases(cases: seq<Case>, id: Text)
    ensures Has(cases, id) <==> exists c :: c in cases && c.id == id
  {
    if i :| 0 <= i < |cases| && cases[i].id == id {
      assert cases[i] in cases;
    }
  }

  lemma {:induction false} FoundCase(cases: seq<Case>, c: Case)
    requires Distinct(Ids(cases)) && c in cases
    ensures Has(cases, c.id) && Find(cases, c.id) == c
  {
    HasOfCases(cases, c.id);
    OnlyOneHasId(cases, Find(cases, c.id), c);
  }

  lemma {:induction false} ApprovalOfFields(corpus: Corpus, d: Decision, reviewer: Text)
    requires Apart(corpus) && d.verdict == Approve
    ensures DecisionOk(d, reviewer, corpus) && ApprovalFits(d, reviewer, corpus)
       <==> MayBeApproved(corpus, d, reviewer)
  {
    if Has(corpus.candidates, d.id) {
      assert CanMove(Find(corpus.candidates, d.id)) ==> Movable(corpus, d, Find(corpus.candidates, d.id));
    } else if Has(corpus.golden, d.id) {
      assert Records(Find(corpus.golden, d.id), d, reviewer)
        ==> AlreadyMoved(corpus, d, reviewer, Find(corpus.golden, d.id));
    }
    if c :| Movable(corpus, d, c) {
      FoundCase(corpus.candidates, c);
    }
    if g :| AlreadyMoved(corpus, d, reviewer, g) {
      FoundCase(corpus.golden, g);
    }
  }

  /** Main result on what is accepted: distinct decisions over a corpus whose ids all differ, with known verdicts, each
      approval signed, labelled, justified, and either of a candidate ready to move or recorded already. */
  lemma {:induction false} PromotableOfFields(corpus: Corpus, decisions: seq<Decision>, reviewer: Text)
    ensures Promotable(corpus, decisions, reviewer) <==>
      && (forall i, j :: 0 <= i < j < |decisions| ==> decisions[i].id != decisions[j].id)
      && AllIdsDiffer(corpus)
      && (forall d :: d in decisions ==> d.verdict in {Pending, Approve, Reject})
      && (forall d :: d in decisions && d.verdict == Approve ==> MayBeApproved(corpus, d, reviewer))
  {
    ApartOfIds(corpus);
    if Apart(corpus) {
      forall d | d in decisions && d.verdict == Approve
        ensures DecisionOk(d, reviewer, corpus) && ApprovalFits(d, reviewer, corpus)
           <==> MayBeApproved(corpus, d, reviewer)
      {
        ApprovalOfFields(corpus, d, reviewer);
      }
    }
  }

  lemma {:induction false} ApprovedOfDecisions(decisions: seq<Decision>, id: Text)
    ensures Approved(decisions, id) <==> exists d :: d in decisions && d.id == id && d.verdict.Approve?
  {
    if i :| 0 <= i < |decisions| && decisions[i].id == id && decisions[i].verdict == Approve {
      assert decisions[i] in decisions;
    }
  }

  lemma {:induction false} ApprovalMoves(corpus: Corpus, decisions: seq<Decision>, c: Case)
    requires c in corpus.candidates
    ensures c in Staying(corpus.candidates, decisions)
       <==> forall d :: d in decisions && d.id == c.id ==> !d.verdict.Approve?
  {
    ApprovedOfDecisions(decisions, c.id);
  }

  /** Which cases a run leaves where: candidates stay as they are unless a decision approves them, golden cases stay as
      they are, and each approved candidate is found among the golden cases. */
  lemma {:induction false} CasesAfter(
    corpus: Corpus, decisions: seq<Decision>, reviewer: Text, now: Text, c: Case)
    requires Promotable(corpus, decisions, reviewer)
    ensures var after := After(corpus, decisions, reviewer, now);
      && (c in after.candidates <==>
            c in corpus.candidates && forall d :: d in decisions && d.id == c.id ==> !d.verdict.Approve?)
      && (c in corpus.golden ==> c in after.golden)
      && (c in corpus.candidates && c !in after.candidates ==> exists g :: g in after.golden && g.id == c.id)
      && SortedBy(after.golden, ById)
  {
    if c in corpus.candidates {
      ApprovalMoves(corpus, decisions, c);
      HasOfCases(corpus.candidates, c.id);
      IdsAreKept(corpus, decisions, reviewer, now);
      HasOfCases(After(corpus, decisions, reviewer, now).golden, c.id);
    }
    GoldenAfter(corpus, decisions, reviewer, now);
  }
}
