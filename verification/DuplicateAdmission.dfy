/** Which clause-frame pairs a semantic extension may call DUPLICATE
    (ai-service/app/contracts/models.py, `SemanticSlot.typed_value` and `SemanticExtension.references`).

    `number` reads decimal text: nothing for text that is no finite decimal. */
module DuplicateAdmission {
  import opened Basics
  import opened Strings

  datatype Name =
    Actor | Beneficiary | Action | Qualifier | ModalityNegation | ObjectScope | Condition | Exception | TemporalTrigger
  | Deadline | Amount | Currency | Unit | DeadlineUnit | BaseAmount | Period | Parameter | Definition

  datatype ValueType = DecimalValue | TextValue | NoValue

  datatype SlotState = Grounded | Unknown | Absent | Unsupported

  datatype Slot = Slot(valueType: ValueType, value: Option<string>, state: SlotState, evidence: seq<Evidence>)

  /** A quoted span and whether its citation was verified. */
  datatype Evidence = Evidence(span: nat, verified: bool)

  datatype Family = Obligation | Right | Prohibition | Remedy | ParameterFrame | DefinitionFrame

  datatype Key = Key(symbols: Option<seq<nat>>, definite: bool, alias: Option<Alias>)

  /** The tenant alias snapshot a key was read with. */
  datatype Alias = Alias(version: Option<nat>, digest: Option<nat>)

  datatype Frame = Frame(
    id: nat, family: Family, profile: nat, dossier: nat, evidence: seq<Evidence>, slots: map<Name, Slot>, key: Key)

  datatype Pair = Pair(
    id: nat, left: nat, right: nat, duplicate: bool, leftEvidence: seq<Evidence>, rightEvidence: seq<Evidence>)

  datatype Extension = Extension(dossier: nat, alias: Alias, frames: seq<Frame>, rows: seq<nat>, pairs: seq<Pair>)

  type Reader = string -> Option<real>

  // ---------------------------------------------------------------- one slot

  datatype SlotFault = NoneWithValue | ValueMissing | NotADecimal | UngroundedValue | AbsentWithValue

  /** The validator every slot has passed. */
  function TypedValue(number: Reader, slot: Slot): Option<SlotFault> {
    if slot.valueType == NoValue && slot.value.Some? then Some(NoneWithValue)
    else if slot.valueType != NoValue && slot.value.None? then Some(ValueMissing)
    else if slot.valueType == DecimalValue && number(slot.value.value).None? then Some(NotADecimal)
    else if slot.state == Grounded && (slot.value.None? || AllSpace(slot.value.value) || slot.evidence == []) then
      Some(UngroundedValue)
    else if slot.state == Absent && (slot.value.Some? || slot.evidence == []) then Some(AbsentWithValue)
    else None
  }

  predicate WellTyped(number: Reader, f: Frame) {
    forall n :: n in f.slots ==> TypedValue(number, f.slots[n]).None?
  }

  predicate Assessed(f: Frame, n: Name) {
    n in f.slots && (f.slots[n].state == Grounded || f.slots[n].state == Absent)
  }

  predicate SameSlot(number: Reader, a: Slot, b: Slot) {
    && a.state == b.state
    && a.valueType == b.valueType
    && if a.valueType == DecimalValue && a.value.Some? && b.value.Some?
       then number(a.value.value) == number(b.value.value)
       else a.value == b.value
  }

  // ---------------------------------------------------------------- what a pair must settle

  const CORE: set<Name> :=
    {Actor, Action, ModalityNegation, ObjectScope, Beneficiary, Condition, Exception, TemporalTrigger, Deadline}

  const MONEY: set<Name> := {Amount, Unit, Currency, BaseAmount, Period}

  predicate NamedParameter(f: Frame) {
    f.family == ParameterFrame && Parameter in f.slots
  }

  predicate AboutMoney(f: Frame) {
    || (Amount in f.slots && f.slots[Amount].value.Some?)
    || (Action in f.slots && f.slots[Action].value.Some?
      && f.slots[Action].value.value in {"PAY", "COMPENSATE", "PENALTY"})
  }

  /** What the kind of the left frame asks for. */
  predicate AskedByKind(left: Frame, n: Name) {
    if left.family == DefinitionFrame then
      n in {Parameter, Definition, ObjectScope, Condition, Exception, TemporalTrigger}
    else if NamedParameter(left) then
      n == Parameter || (n in CORE && n !in {Actor, Action, ModalityNegation, Beneficiary})
    else n in CORE || (left.family == Remedy && n == Qualifier)
  }

  predicate AsksMoney(left: Frame, right: Frame) {
    left.family == Remedy || left.family == ParameterFrame || AboutMoney(left) || AboutMoney(right)
  }

  predicate Required(left: Frame, right: Frame, n: Name) {
    || AskedByKind(left, n)
    || (AsksMoney(left, right) && n in MONEY)
    || Assessed(left, n)
    || Assessed(right, n)
  }

  /** Slots whose meaning the clause key already carries. */
  predicate InKey(left: Frame, n: Name) {
    || (n == Qualifier && left.family == Remedy)
    || (n == Action && left.family != DefinitionFrame && !NamedParameter(left))
  }

  predicate Verified(evidence: seq<Evidence>) {
    forall i :: 0 <= i < |evidence| ==> evidence[i].verified
  }

  predicate SameClause(left: Frame, right: Frame) {
    && left.key.definite && right.key.definite
    && left.key.symbols == right.key.symbols
    && left.family == right.family
    && left.profile == right.profile
    && Verified(left.evidence) && Verified(right.evidence)
  }

  ghost predicate Settled(left: Frame, right: Frame) {
    forall n :: Required(left, right, n) ==> Assessed(left, n) && Assessed(right, n)
  }

  ghost predicate Agree(number: Reader, left: Frame, right: Frame) {
    forall n :: Assessed(left, n) && Assessed(right, n) && !InKey(left, n)
      ==> SameSlot(number, left.slots[n], right.slots[n])
  }

  /** The pair may be called DUPLICATE. */
  ghost predicate Admitted(number: Reader, left: Frame, right: Frame) {
    SameClause(left, right) && Settled(left, right) && Agree(number, left, right)
  }

  // ---------------------------------------------------------------- a near-equivalence

  /** Admission forces both frames to have assessed the same slots, and all that were asked for. */
  lemma {:induction false} SameAssessment(number: Reader, left: Frame, right: Frame, n: Name)
    requires Admitted(number, left, right)
    ensures Assessed(left, n) <==> Assessed(right, n)
    ensures Required(left, right, n) <==> Assessed(left, n)
  {
  }

  lemma {:induction false} SettledThrough(number: Reader, left: Frame, middle: Frame, right: Frame, n: Name)
    requires Admitted(number, left, middle) && Admitted(number, middle, right) && Required(left, right, n)
    ensures Assessed(left, n) && Assessed(right, n)
  {
    assert Required(left, middle, n) || Required(middle, right, n);
    SameAssessment(number, left, middle, n);
    SameAssessment(number, middle, right, n);
  }

  lemma {:induction false} AgreeThrough(number: Reader, left: Frame, middle: Frame, right: Frame, n: Name)
    requires Admitted(number, left, middle) && Admitted(number, middle, right)
    requires Assessed(left, n) && !InKey(left, n)
    ensures Assessed(right, n) && SameSlot(number, left.slots[n], right.slots[n])
  {
    SameAssessment(number, left, middle, n);
    SameAssessment(number, middle, right, n);
    SameAssessment(number, left, middle, Parameter);
    assert !InKey(middle, n);
  }

  lemma {:induction false} AdmissionIsTransitive(number: Reader, left: Frame, middle: Frame, right: Frame)
    requires Admitted(number, left, middle) && Admitted(number, middle, right)
    ensures Admitted(number, left, right)
  {
    forall n | Required(left, right, n) ensures Assessed(left, n) && Assessed(right, n) {
      SettledThrough(number, left, middle, right, n);
    }
    forall n | Assessed(left, n) && Assessed(right, n) && !InKey(left, n)
      ensures SameSlot(number, left.slots[n], right.slots[n])
    {
      AgreeThrough(number, left, middle, right, n);
    }
  }

  /** The right frame names a parameter it did not assess, the left one names none. */
  predicate Lopsided(left: Frame, right: Frame) {
    left.family == ParameterFrame && Parameter !in left.slots && Parameter in right.slots
  }

  /** Exchanging the frames of an admitted pair is admitted too, exactly when the pair is not lopsided. */
  lemma {:induction false} AdmissionIsSymmetricExactlyWhenLevel(number: Reader, left: Frame, right: Frame)
    requires Admitted(number, left, right)
    ensures Admitted(number, right, left) <==> !Lopsided(left, right)
    ensures Lopsided(left, right) ==> !Assessed(right, Parameter)
    ensures Lopsided(left, right) <==> !Admitted(number, right, right)
  {
    forall n ensures Assessed(left, n) == Assessed(right, n) {
      SameAssessment(number, left, right, n);
    }
    if Lopsided(left, right) {
      assert Required(right, left, Parameter) && Required(right, right, Parameter);
    } else {
      assert NamedParameter(left) <==> NamedParameter(right) by {
        assert NamedParameter(left) ==> Required(left, right, Parameter);
      }
      forall n | Required(right, left, n) || Required(right, right, n) ensures Assessed(left, n) {
        assert Required(left, right, n);
      }
    }
  }

  predicate NotParameter(n: Name) {
    n != Parameter
  }

  /** Every slot but the parameter is recorded as absent, on verified evidence. */
  ghost predicate Bare(f: Frame) {
    && f.family == ParameterFrame && f.key.definite && Verified(f.evidence)
    && (forall n :: NotParameter(n) ==> n in f.slots && f.slots[n] == Slot(NoValue, None, Absent, f.evidence))
    && !Assessed(f, Parameter)
  }

  lemma {:induction false} BareFramesAreAdmitted(number: Reader, left: Frame, right: Frame)
    requires Bare(left) && Bare(right) && left.key == right.key && left.profile == right.profile
    requires Parameter !in left.slots
    ensures Admitted(number, left, right)
  {
  }

  /** A lopsided pair: two frames admitted one way only. */
  lemma {:induction false} LopsidedPair(number: Reader) returns (left: Frame, right: Frame)
    ensures Admitted(number, left, right) && !Admitted(number, right, left)
  {
    var seen := [Evidence(1, true)];
    var absent := Slot(NoValue, None, Absent, seen);
    var slots := map n: Name | NotParameter(n) :: absent;
    var key := Key(Some([7]), true, None);
    left := Frame(1, ParameterFrame, 0, 0, seen, slots, key);
    right := Frame(2, ParameterFrame, 0, 0, seen, slots[Parameter := Slot(NoValue, None, Unknown, [])], key);
    BareFramesAreAdmitted(number, left, right);
    AdmissionIsSymmetricExactlyWhenLevel(number, left, right);
  }

  /** What an admitted pair agrees on is stated in both frames or recorded as absent from both, with evidence. */
  lemma {:induction false} AgreementIsGrounded(number: Reader, left: Frame, right: Frame, n: Name)
    requires WellTyped(number, left) && WellTyped(number, right)
    requires Admitted(number, left, right) && Required(left, right, n)
    ensures n in left.slots && left.slots[n].evidence != [] && n in right.slots && right.slots[n].evidence != []
    ensures !InKey(left, n) ==> (left.slots[n].value.None? <==> right.slots[n].value.None?)
    ensures left.slots[n].value.Some? ==> !AllSpace(left.slots[n].value.value)
    ensures left.slots[n].value.None? <==> left.slots[n].state == Absent
  {
  }

  // ---------------------------------------------------------------- the validator

  datatype Fault =
    | RowMismatch | DossierMismatch | AliasPin | PairTarget | PairEvidence | NotAssessed | HiddenDifference
    | RepeatedPair

  ghost function DuplicateFault(number: Reader, left: Frame, right: Frame): Option<Fault> {
    if !SameClause(left, right) || !Settled(left, right) then Some(NotAssessed)
    else if !Agree(number, left, right) then Some(HiddenDifference)
    else None
  }

  /** The names both frames have to settle, collected step by step. */
  method CollectRequired(left: Frame, right: Frame) returns (required: set<Name>)
    ensures forall n :: n in required <==> Required(left, right, n)
  {
    required := CORE;
    if left.family == ParameterFrame && Parameter in left.slots {
      required := required - {Actor, Action, ModalityNegation, Beneficiary};
      required := required + {Parameter};
    } else if left.family == DefinitionFrame {
      required := {Parameter, Definition, ObjectScope, Condition, Exception, TemporalTrigger};
    }
    if left.family == Remedy {
      required := required + {Qualifier};
    }
    if left.family == Remedy || left.family == ParameterFrame || AboutMoney(left) || AboutMoney(right) {
      required := required + MONEY;
    }
    required := required + set n | n in left.slots && Assessed(left, n);
    required := required + set n | n in right.slots && Assessed(right, n);
  }

  /** Compares the named slots one by one. */
  method CompareSlots(number: Reader, left: Frame, right: Frame, names: set<Name>) returns (same: bool)
    requires forall n :: n in names ==> n in left.slots && n in right.slots
    ensures same <==> forall n :: n in names ==> SameSlot(number, left.slots[n], right.slots[n])
  {
    var pending := names;
    while pending != {}
      invariant pending <= names
      invariant forall n :: n in names - pending ==> SameSlot(number, left.slots[n], right.slots[n])
      decreases |pending|
    {
      var n :| n in pending;
      if !SameSlot(number, left.slots[n], right.slots[n]) {
        return false;
      }
      pending := pending - {n};
    }
    return true;
  }

  method CollectKeyFields(left: Frame) returns (fields: set<Name>)
    ensures forall n :: n in fields <==> InKey(left, n)
  {
    fields := if left.family == Remedy then {Qualifier} else {};
    if left.family != DefinitionFrame && !(left.family == ParameterFrame && Parameter in left.slots) {
      fields := fields + {Action};
    }
  }

  method CheckDuplicate(number: Reader, left: Frame, right: Frame) returns (fault: Option<Fault>)
    ensures fault == DuplicateFault(number, left, right)
    ensures fault.None? <==> Admitted(number, left, right)
  {
    var required := CollectRequired(left, right);
    if !SameClause(left, right) || !(forall n :: n in required ==> Assessed(left, n) && Assessed(right, n)) {
      return Some(NotAssessed);
    }
    var keyFields := CollectKeyFields(left);
    var same := CompareSlots(number, left, right, required - keyFields);
    assert forall n :: n in required - keyFields <==> Assessed(left, n) && Assessed(right, n) && !InKey(left, n);
    return if same then None else Some(HiddenDifference);
  }

  // ---------------------------------------------------------------- a whole extension

  function Ids(frames: seq<Frame>): (ids: seq<nat>)
    ensures |ids| == |frames| && forall i :: 0 <= i < |frames| ==> ids[i] == frames[i].id
  {
    if frames == [] then [] else Ids(frames[..|frames| - 1]) + [frames[|frames| - 1].id]
  }

  /** The frames by id, a later one replacing an earlier one. */
  function ById(frames: seq<Frame>): (m: map<nat, Frame>)
    ensures m.Keys == Elements(Ids(frames))
  {
    if frames == [] then map[]
    else
      var last := frames[|frames| - 1];
      ElementsOfAppend(Ids(frames[..|frames| - 1]), last.id);
      ById(frames[..|frames| - 1])[last.id := last]
  }

  function PairIds(pairs: seq<Pair>): (ids: seq<nat>)
    ensures |ids| == |pairs| && forall i :: 0 <= i < |pairs| ==> ids[i] == pairs[i].id
  {
    if pairs == [] then [] else [pairs[0].id] + PairIds(pairs[1..])
  }

  ghost function PairFault(number: Reader, byId: map<nat, Frame>, p: Pair): Option<Fault> {
    if p.left !in byId || p.right !in byId || p.left == p.right then Some(PairTarget)
    else if p.leftEvidence != byId[p.left].evidence || p.rightEvidence != byId[p.right].evidence then Some(PairEvidence)
    else if p.duplicate then DuplicateFault(number, byId[p.left], byId[p.right])
    else None
  }

  ghost function FirstFault(number: Reader, byId: map<nat, Frame>, pairs: seq<Pair>, from: nat): Option<Fault>
    requires from <= |pairs|
    decreases |pairs| - from
  {
    if from == |pairs| then None
    else if PairFault(number, byId, pairs[from]).Some? then PairFault(number, byId, pairs[from])
    else FirstFault(number, byId, pairs, from + 1)
  }

  ghost predicate RowsMatch(ext: Extension) {
    Distinct(Ids(ext.frames)) && Distinct(ext.rows) && Elements(ext.rows) == Elements(Ids(ext.frames))
  }

  predicate InDossier(ext: Extension) {
    forall i :: 0 <= i < |ext.frames| ==> ext.frames[i].dossier == ext.dossier
  }

  predicate PinsAlias(ext: Extension) {
    forall i :: 0 <= i < |ext.frames| ==> ext.frames[i].key.alias.None? || ext.frames[i].key.alias.value == ext.alias
  }

  ghost function ExtensionFault(number: Reader, ext: Extension): Option<Fault> {
    if !RowsMatch(ext) then Some(RowMismatch)
    else if !InDossier(ext) then Some(DossierMismatch)
    else if !PinsAlias(ext) then Some(AliasPin)
    else if FirstFault(number, ById(ext.frames), ext.pairs, 0).Some? then
      FirstFault(number, ById(ext.frames), ext.pairs, 0)
    else if !Distinct(PairIds(ext.pairs)) then Some(RepeatedPair)
    else None
  }

  method IndexFrames(frames: seq<Frame>) returns (byId: map<nat, Frame>)
    ensures byId == ById(frames)
  {
    byId := map[];
    for i := 0 to |frames|
      invariant byId == ById(frames[..i])
    {
      byId := byId[frames[i].id := frames[i]];
      assert frames[..i + 1][..i] == frames[..i];
    }
    assert frames[..|frames|] == frames;
  }

  method CheckPair(number: Reader, byId: map<nat, Frame>, p: Pair) returns (fault: Option<Fault>)
    ensures fault == PairFault(number, byId, p)
  {
    if p.left !in byId || p.right !in byId || p.left == p.right {
      return Some(PairTarget);
    }
    if p.leftEvidence != byId[p.left].evidence || p.rightEvidence != byId[p.right].evidence {
      return Some(PairEvidence);
    }
    if p.duplicate {
      fault := CheckDuplicate(number, byId[p.left], byId[p.right]);
    } else {
      fault := None;
    }
  }

  method CheckPairs(number: Reader, byId: map<nat, Frame>, pairs: seq<Pair>) returns (fault: Option<Fault>)
    ensures fault == FirstFault(number, byId, pairs, 0)
  {
    for k := 0 to |pairs|
      invariant FirstFault(number, byId, pairs, k) == FirstFault(number, byId, pairs, 0)
    {
      fault := CheckPair(number, byId, pairs[k]);
      if fault.Some? {
        return;
      }
    }
    return None;
  }

  /** The validator of a whole extension, up to its timeline. */
  method References(number: Reader, ext: Extension) returns (fault: Option<Fault>)
    ensures fault == ExtensionFault(number, ext)
  {
    var byId := IndexFrames(ext.frames);
    DistinctBySize(Ids(ext.frames));
    DistinctBySize(ext.rows);
    DistinctBySize(PairIds(ext.pairs));
    if |byId.Keys| != |ext.frames| || |Elements(ext.rows)| != |ext.rows| || Elements(ext.rows) != byId.Keys {
      return Some(RowMismatch);
    }
    if !InDossier(ext) {
      return Some(DossierMismatch);
    }
    if !PinsAlias(ext) {
      return Some(AliasPin);
    }
    fault := CheckPairs(number, byId, ext.pairs);
    if fault.None? && |Elements(PairIds(ext.pairs))| != |ext.pairs| {
      return Some(RepeatedPair);
    }
  }

  // ---------------------------------------------------------------- chains of duplicates

  lemma {:induction false} NoFaultInPairs(number: Reader, byId: map<nat, Frame>, pairs: seq<Pair>, from: nat)
    requires from <= |pairs|
    ensures FirstFault(number, byId, pairs, from).None?
       <==> forall k :: from <= k < |pairs| ==> PairFault(number, byId, pairs[k]).None?
    decreases |pairs| - from
  {
    if from < |pairs| {
      NoFaultInPairs(number, byId, pairs, from + 1);
    }
  }

  predicate SaysDuplicate(ext: Extension, left: nat, right: nat) {
    exists p :: p in ext.pairs && p.duplicate && p.left == left && p.right == right
  }

  predicate IsChain(ext: Extension, chain: seq<nat>) {
    |chain| >= 2 && forall i :: 0 < i < |chain| ==> SaysDuplicate(ext, chain[i - 1], chain[i])
  }

  /** In an accepted extension the ends of every chain of DUPLICATE pairs are frames that may be called DUPLICATE. */
  lemma {:induction false} ChainEndsAreAdmitted(number: Reader, ext: Extension, chain: seq<nat>)
    requires ExtensionFault(number, ext).None? && IsChain(ext, chain)
    ensures chain[0] in ById(ext.frames) && chain[|chain| - 1] in ById(ext.frames)
    ensures Admitted(number, ById(ext.frames)[chain[0]], ById(ext.frames)[chain[|chain| - 1]])
    decreases |chain|
  {
    var byId := ById(ext.frames);
    NoFaultInPairs(number, byId, ext.pairs, 0);
    var n := |chain|;
    assert SaysDuplicate(ext, chain[n - 2], chain[n - 1]);
    if n > 2 {
      ChainEndsAreAdmitted(number, ext, chain[..n - 1]);
      AdmissionIsTransitive(number, byId[chain[0]], byId[chain[n - 2]], byId[chain[n - 1]]);
    }
  }

  lemma {:induction false} DistinctWithNewPair(pairs: seq<Pair>, p: Pair)
    requires Distinct(PairIds(pairs)) && p.id !in PairIds(pairs)
    ensures Distinct(PairIds(pairs + [p]))
  {
  }

  lemma {:induction false} FaultlessWithNewPair(number: Reader, byId: map<nat, Frame>, pairs: seq<Pair>, p: Pair)
    requires FirstFault(number, byId, pairs, 0).None? && PairFault(number, byId, p).None?
    ensures FirstFault(number, byId, pairs + [p], 0).None?
  {
    NoFaultInPairs(number, byId, pairs, 0);
    NoFaultInPairs(number, byId, pairs + [p], 0);
  }

  lemma {:induction false} OneMorePair(number: Reader, ext: Extension, p: Pair)
    requires ExtensionFault(number, ext).None? && p.id !in PairIds(ext.pairs)
    requires PairFault(number, ById(ext.frames), p).None?
    ensures ExtensionFault(number, ext.(pairs := ext.pairs + [p])).None?
  {
    FaultlessWithNewPair(number, ById(ext.frames), ext.pairs, p);
    DistinctWithNewPair(ext.pairs, p);
  }

  /** Writing down the pair a chain implies keeps the extension accepted. */
  lemma {:induction false} ImpliedPairIsAccepted(number: Reader, ext: Extension, chain: seq<nat>, id: nat)
    requires ExtensionFault(number, ext).None? && IsChain(ext, chain)
    requires chain[0] != chain[|chain| - 1] && id !in PairIds(ext.pairs)
    ensures chain[0] in ById(ext.frames) && chain[|chain| - 1] in ById(ext.frames)
    ensures var left, right := ById(ext.frames)[chain[0]], ById(ext.frames)[chain[|chain| - 1]];
      var implied := Pair(id, chain[0], chain[|chain| - 1], true, left.evidence, right.evidence);
      ExtensionFault(number, ext.(pairs := ext.pairs + [implied])).None?
  {
    ChainEndsAreAdmitted(number, ext, chain);
    var left, right := ById(ext.frames)[chain[0]], ById(ext.frames)[chain[|chain| - 1]];
    OneMorePair(number, ext, Pair(id, chain[0], chain[|chain| - 1], true, left.evidence, right.evidence));
  }

  // ---------------------------------------------------------------- the rules in terms of the fields alone

  /** A slot passes exactly when its type says whether it has a value, a decimal reads as a number, a grounded slot
      has text and evidence, and an absent one has evidence and no value. */
  lemma {:induction false} ValidSlots(number: Reader, slot: Slot)
    ensures TypedValue(number, slot).None? <==>
      && (slot.valueType.NoValue? <==> slot.value.None?)
      && (slot.valueType.DecimalValue? ==> number(slot.value.value).Some?)
      && (slot.state.Grounded? ==> slot.value.Some? && !AllSpace(slot.value.value) && slot.evidence != [])
      && (slot.state.Absent? ==> slot.value.None? && slot.evidence != [])
  {
  }

  /** The slot is there and its state is neither unknown nor unsupported. */
  ghost predicate Decided(f: Frame, n: Name) {
    n in f.slots && !f.slots[n].state.Unknown? && !f.slots[n].state.Unsupported?
  }

  const EIGHT: set<Name> := {Action, Actor, Beneficiary, Condition, Deadline, Exception, ObjectScope, TemporalTrigger}

  /** The names a kind of frame has to settle whatever its slots say. */
  function NamesOf(family: Family, hasParameter: bool): set<Name> {
    match family
    case DefinitionFrame => {Parameter, Definition, ObjectScope, Condition, Exception, TemporalTrigger}
    case ParameterFrame =>
      if hasParameter then {Parameter, ObjectScope, Condition, Exception, TemporalTrigger, Deadline}
      else EIGHT + {ModalityNegation}
    case Remedy => EIGHT + {ModalityNegation, Qualifier}
    case _ => EIGHT + {ModalityNegation}
  }

  /** A frame with an amount, or one whose action is to pay. */
  ghost predicate Pays(f: Frame) {
    || (Amount in f.slots && f.slots[Amount].value != None)
    || (Action in f.slots && f.slots[Action].value in [Some("PAY"), Some("COMPENSATE"), Some("PENALTY")])
  }

  ghost predicate HasToBeSettled(left: Frame, right: Frame, n: Name) {
    || n in NamesOf(left.family, Parameter in left.slots)
    || ((left.family in {Remedy, ParameterFrame} || Pays(left) || Pays(right))
        && n in {Amount, Unit, Currency, BaseAmount, Period})
    || Decided(left, n) || Decided(right, n)
  }

  /** The clause key speaks for the qualifier of a remedy, and for the action except in definitions and in frames
      about a parameter. */
  predicate SpokenFor(left: Frame, n: Name) {
    match n
    case Qualifier => left.family.Remedy?
    case Action => !left.family.DefinitionFrame? && (left.family.ParameterFrame? ==> Parameter !in left.slots)
    case _ => false
  }

  /** Two slots say the same: two decimals by number, anything else by text. */
  predicate SayTheSame(number: Reader, a: Slot, b: Slot) {
    if a.state != b.state || a.valueType != b.valueType then false
    else
      match (a.valueType, a.value, b.value)
      case (DecimalValue, Some(x), Some(y)) => number(x) == number(y)
      case _ => a.value == b.value
  }

  ghost predicate OneClause(left: Frame, right: Frame) {
    && left.key.definite && right.key.definite && left.key.symbols == right.key.symbols
    && (left.family, left.profile) == (right.family, right.profile)
    && forall e :: e in left.evidence + right.evidence ==> e.verified
  }

  lemma {:induction false} ClauseOfFields(left: Frame, right: Frame)
    ensures SameClause(left, right) <==> OneClause(left, right)
  {
    assert forall i :: 0 <= i < |left.evidence| ==> left.evidence[i] in left.evidence + right.evidence;
    assert forall i :: 0 <= i < |right.evidence| ==> right.evidence[i] in left.evidence + right.evidence;
  }

  lemma {:induction false} RequiredOfFields(left: Frame, right: Frame, n: Name)
    ensures Assessed(left, n) <==> Decided(left, n)
    ensures Required(left, right, n) <==> HasToBeSettled(left, right, n)
    ensures InKey(left, n) <==> SpokenFor(left, n)
  {
    AboutMoneyOfFields(left);
    AboutMoneyOfFields(right);
    AskedOfFields(left, n);
  }

  lemma {:induction false} AskedOfFields(left: Frame, n: Name)
    ensures AskedByKind(left, n) <==> n in NamesOf(left.family, Parameter in left.slots)
  {
  }

  lemma {:induction false} AboutMoneyOfFields(f: Frame)
    ensures AboutMoney(f) <==> Pays(f)
  {
  }

  lemma {:induction false} SettledOfFields(left: Frame, right: Frame)
    ensures Settled(left, right)
       <==> forall n :: HasToBeSettled(left, right, n) ==> Decided(left, n) && Decided(right, n)
  {
    forall n
      ensures Required(left, right, n) <==> HasToBeSettled(left, right, n)
      ensures Assessed(left, n) <==> Decided(left, n)
      ensures Assessed(right, n) <==> Decided(right, n)
    {
      RequiredOfFields(left, right, n);
      RequiredOfFields(right, left, n);
    }
  }

  lemma SlotsOfFields(number: Reader, a: Slot, b: Slot)
    ensures SameSlot(number, a, b) <==> SayTheSame(number, a, b)
  {
  }

  ghost predicate Differs(number: Reader, left: Frame, right: Frame, n: Name)
    requires n in left.slots && n in right.slots
  {
    !SpokenFor(left, n) && !SayTheSame(number, left.slots[n], right.slots[n])
  }

  lemma {:induction false} AgreeOfFields(number: Reader, left: Frame, right: Frame)
    requires Settled(left, right)
    ensures Agree(number, left, right)
       <==> forall n :: Decided(left, n) && Decided(right, n) ==> !Differs(number, left, right, n)
  {
    forall n | n in left.slots && n in right.slots
      ensures Assessed(left, n) <==> Decided(left, n)
      ensures Assessed(right, n) <==> Decided(right, n)
      ensures !InKey(left, n) && !SameSlot(number, left.slots[n], right.slots[n])
         <==> Differs(number, left, right, n)
    {
      RequiredOfFields(left, right, n);
      RequiredOfFields(right, left, n);
      SlotsOfFields(number, left.slots[n], right.slots[n]);
    }
  }

  /** Main result: in terms of the fields, a pair is refused as not assessed exactly when the clauses differ or a
      required slot is not decided on both sides; a settled pair of one clause is refused exactly when a decided
      slot the key does not speak for says something else on the other side. */
  lemma {:induction false} FaultOfFields(number: Reader, left: Frame, right: Frame)
    ensures DuplicateFault(number, left, right) == Some(NotAssessed) <==>
      || !OneClause(left, right)
      || exists n :: HasToBeSettled(left, right, n) && !(Decided(left, n) && Decided(right, n))
    ensures DuplicateFault(number, left, right) == Some(HiddenDifference) <==>
      && OneClause(left, right)
      && (forall n :: HasToBeSettled(left, right, n) ==> Decided(left, n) && Decided(right, n))
      && exists n :: Decided(left, n) && Decided(right, n) && Differs(number, left, right, n)
    ensures DuplicateFault(number, left, right) in {None, Some(NotAssessed), Some(HiddenDifference)}
  {
    ClauseOfFields(left, right);
    SettledOfFields(left, right);
    if Settled(left, right) {
      AgreeOfFields(number, left, right);
    }
  }

  lemma {:induction false} FrameOfId(frames: seq<Frame>, f: Frame)
    requires Distinct(Ids(frames)) && f in frames
    ensures f.id in ById(frames) && ById(frames)[f.id] == f
  {
    var init, last := frames[..|frames| - 1], frames[|frames| - 1];
    assert Ids(frames)[..|frames| - 1] == Ids(init);
    if f != last {
      FrameOfId(init, f);
      var k: nat :| k < |init| && init[k] == f;
      assert Ids(frames)[k] == f.id;
    }
  }

  lemma {:induction false} IdOfFrame(frames: seq<Frame>, id: nat)
    requires id in ById(frames)
    ensures ById(frames)[id] in frames && ById(frames)[id].id == id
  {
    var init, last := frames[..|frames| - 1], frames[|frames| - 1];
    if id != last.id {
      IdOfFrame(init, id);
    }
  }

  lemma {:induction false} MembersOfIds(frames: seq<Frame>, id: nat)
    ensures id in Ids(frames) <==> exists f :: f in frames && f.id == id
  {
    if id in Ids(frames) {
      var k: nat :| k < |frames| && Ids(frames)[k] == id;
      assert frames[k] in frames;
    }
  }

  /** A pair joins two different frames of the extension, with their evidence, and is admitted if called DUPLICATE. */
  ghost predicate Joins(number: Reader, ext: Extension, p: Pair, left: Frame, right: Frame) {
    && left in ext.frames && right in ext.frames && left.id == p.left && right.id == p.right && p.left != p.right
    && left.evidence == p.leftEvidence && right.evidence == p.rightEvidence
    && (p.duplicate ==> Admitted(number, left, right))
  }

  ghost predicate PairStands(number: Reader, ext: Extension, p: Pair) {
    exists left, right :: Joins(number, ext, p, left, right)
  }

  lemma {:induction false} PairOfFields(number: Reader, ext: Extension, p: Pair)
    requires Distinct(Ids(ext.frames))
    ensures PairFault(number, ById(ext.frames), p).None? <==> PairStands(number, ext, p)
  {
    var byId := ById(ext.frames);
    if PairFault(number, byId, p).None? {
      IdOfFrame(ext.frames, p.left);
      IdOfFrame(ext.frames, p.right);
      assert Joins(number, ext, p, byId[p.left], byId[p.right]);
    }
    if left, right :| Joins(number, ext, p, left, right) {
      FrameOfId(ext.frames, left);
      FrameOfId(ext.frames, right);
    }
  }

  lemma {:induction false} PairsOfFields(number: Reader, ext: Extension)
    requires Distinct(Ids(ext.frames))
    ensures FirstFault(number, ById(ext.frames), ext.pairs, 0).None?
       <==> forall p :: p in ext.pairs ==> PairStands(number, ext, p)
  {
    NoFaultInPairs(number, ById(ext.frames), ext.pairs, 0);
    forall k: nat | k < |ext.pairs|
      ensures PairFault(number, ById(ext.frames), ext.pairs[k]).None? <==> PairStands(number, ext, ext.pairs[k])
    {
      PairOfFields(number, ext, ext.pairs[k]);
    }
    assert forall k: nat :: k < |ext.pairs| ==> ext.pairs[k] in ext.pairs;
  }

  /** The rows name the frames, each once. */
  ghost predicate RowsNameFrames(ext: Extension) {
    && (forall i, j :: 0 <= i < j < |ext.frames| ==> ext.frames[i].id != ext.frames[j].id)
    && (forall i, j :: 0 <= i < j < |ext.rows| ==> ext.rows[i] != ext.rows[j])
    && (forall f :: f in ext.frames ==> f.id in ext.rows)
    && (forall id :: id in ext.rows ==> exists f :: f in ext.frames && f.id == id)
  }

  lemma {:induction false} RowsOfFields(ext: Extension)
    ensures RowsMatch(ext) <==> RowsNameFrames(ext)
  {
    forall id ensures id in Ids(ext.frames) <==> exists f :: f in ext.frames && f.id == id {
      MembersOfIds(ext.frames, id);
    }
    assert Elements(ext.rows) == Elements(Ids(ext.frames))
      <==> forall id :: id in ext.rows <==> id in Ids(ext.frames) by {
      if Elements(ext.rows) == Elements(Ids(ext.frames)) {
        forall id ensures id in ext.rows <==> id in Ids(ext.frames) {
          assert id in Elements(ext.rows) <==> id in Elements(Ids(ext.frames));
        }
      }
    }
  }

  ghost predicate FramesBelong(ext: Extension) {
    forall f :: f in ext.frames ==> f.dossier == ext.dossier && f.key.alias in {None, Some(ext.alias)}
  }

  lemma {:induction false} FramesOfFields(ext: Extension)
    ensures InDossier(ext) <==> forall f :: f in ext.frames ==> f.dossier == ext.dossier
    ensures PinsAlias(ext) <==> forall f :: f in ext.frames ==> f.key.alias in {None, Some(ext.alias)}
  {
    assert forall k: nat :: k < |ext.frames| ==> ext.frames[k] in ext.frames;
  }

  ghost predicate PairsDiffer(ext: Extension) {
    forall i, j :: 0 <= i < j < |ext.pairs| ==> ext.pairs[i].id != ext.pairs[j].id
  }

  lemma {:induction false} PairIdsOfFields(ext: Extension)
    ensures Distinct(PairIds(ext.pairs)) <==> PairsDiffer(ext)
  {
  }

  /** Main result: an extension is accepted exactly when its rows name its frames, all frames are of its dossier and
      read without aliases or with its alias snapshot, every pair joins frames of it, and pair ids differ. */
  lemma {:induction false} AcceptedOfFields(number: Reader, ext: Extension)
    ensures ExtensionFault(number, ext).None? <==>
      && RowsNameFrames(ext) && FramesBelong(ext) && PairsDiffer(ext)
      && (forall p :: p in ext.pairs ==> PairStands(number, ext, p))
  {
    RowsOfFields(ext);
    FramesOfFields(ext);
    PairIdsOfFields(ext);
    if RowsMatch(ext) {
      PairsOfFields(number, ext);
    }
  }
}
