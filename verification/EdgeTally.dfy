/** Counts per operation and their totals over all document pairs (evals/contract_graph/score.py).

    Every rate of the report is `passed / denominator` with a Wilson interval, so each numerator
    must stay at or below its denominator for the interval to be defined. */
module EdgeTally {
  import opened Basics
  import opened EdgeMatching

  const BASE_OPS: set<Op> := {SUBSTITUTION, INSERTION, REPEAL}

  datatype Counts = Counts(gold: nat, pred: nat, found: nat, agree: nat, correct: nat) {
    function Plus(c: Counts): Counts {
      Counts(gold + c.gold, pred + c.pred, found + c.found, agree + c.agree, correct + c.correct)
    }

    /** All four rates have a numerator within their denominator. */
    predicate Sound() {
      found <= gold && agree <= found && agree <= pred && correct <= found
    }
  }

  predicate TargetOk(g: Gold, p: Slot) {
    Given(g.target) && p.target == g.target
  }

  // ---------------------------------------------------------------- what is counted

  /** Slots paired with a gold record of op OTHER are set aside. */
  ghost function OnOther(gold: seq<Gold>, m: map<nat, nat>): set<nat>
    requires forall gi :: gi in m ==> gi < |gold|
  {
    set gi | gi in m && gold[gi].op == OTHER :: m[gi]
  }

  predicate Scorable(p: Slot) {
    p.op.Some? && p.op.value != OTHER
  }

  ghost function GoldWith(gold: seq<Gold>, op: Op, upTo: nat): set<nat>
    requires upTo <= |gold|
  {
    set gi: nat | gi < upTo && gold[gi].op == op
  }

  ghost function SlotsWith(slots: seq<Slot>, aside: set<nat>, op: Op, upTo: nat): set<nat>
    requires upTo <= |slots|
  {
    set pi: nat | pi < upTo && pi !in aside && Scorable(slots[pi]) && slots[pi].op.value == op
  }

  ghost function FoundWith(gold: seq<Gold>, m: map<nat, nat>, op: Op, upTo: nat): set<nat>
    requires upTo <= |gold|
  {
    set gi: nat | gi < upTo && gi in m && gold[gi].op == op
  }

  ghost function AgreeingWith(gold: seq<Gold>, slots: seq<Slot>, m: map<nat, nat>, op: Op, upTo: nat): set<nat>
    requires upTo <= |gold| && forall gi :: gi in m ==> m[gi] < |slots|
  {
    set gi: nat | gi < upTo && gi in m && gold[gi].op == op && slots[m[gi]].op == Some(op)
  }

  ghost function CorrectWith(gold: seq<Gold>, slots: seq<Slot>, m: map<nat, nat>, op: Op, upTo: nat): set<nat>
    requires upTo <= |gold| && forall gi :: gi in m ==> m[gi] < |slots|
  {
    set gi: nat | gi < upTo && gi in m && gold[gi].op == op && TargetOk(gold[gi], slots[m[gi]])
  }

  ghost predicate InRange(gold: seq<Gold>, slots: seq<Slot>, m: map<nat, nat>) {
    forall gi :: gi in m ==> gi < |gold| && m[gi] < |slots|
  }

  /** The counts of one operation in one document pair. */
  ghost function CountsOf(gold: seq<Gold>, slots: seq<Slot>, m: map<nat, nat>, op: Op): Counts
    requires InRange(gold, slots, m)
  {
    Counts(|GoldWith(gold, op, |gold|)|, |SlotsWith(slots, OnOther(gold, m), op, |slots|)|,
           |FoundWith(gold, m, op, |gold|)|, |AgreeingWith(gold, slots, m, op, |gold|)|,
           |CorrectWith(gold, slots, m, op, |gold|)|)
  }

  /** Every rate of a pair's tally is defined; the precision rate because slots are paired once. */
  lemma {:induction false} CountsAreSound(gold: seq<Gold>, slots: seq<Slot>, m: map<nat, nat>, op: Op)
    requires IsMatching(BySource, gold, slots, m) && op != OTHER
    ensures CountsOf(gold, slots, m, op).Sound()
  {
    var n := |gold|;
    SubsetCardinality(FoundWith(gold, m, op, n), GoldWith(gold, op, n));
    SubsetCardinality(AgreeingWith(gold, slots, m, op, n), FoundWith(gold, m, op, n));
    SubsetCardinality(CorrectWith(gold, slots, m, op, n), FoundWith(gold, m, op, n));
    var agreeing := AgreeingWith(gold, slots, m, op, n);
    var image := map gi | gi in agreeing :: m[gi];
    InjectionBoundsDomain(image, SlotsWith(slots, OnOther(gold, m), op, |slots|));
    assert image.Keys == agreeing;
    assert |image| == |image.Keys|;
  }

  // ---------------------------------------------------------------- one pair's tally

  predicate CountsOp(gold: seq<Gold>, slots: seq<Slot>, aside: set<nat>, op: Op) {
    || op in BASE_OPS
    || (op != OTHER && exists g :: g in gold && g.op == op)
    || (exists pi: nat :: pi < |slots| && pi !in aside && Scorable(slots[pi]) && slots[pi].op.value == op)
  }

  ghost predicate AllSound(byOp: map<Op, Counts>) {
    forall op :: op in byOp ==> byOp[op].Sound()
  }

  ghost predicate IsTally(byOp: map<Op, Counts>, gold: seq<Gold>, slots: seq<Slot>, m: map<nat, nat>)
    requires InRange(gold, slots, m)
  {
    && (forall op :: op in byOp <==> CountsOp(gold, slots, OnOther(gold, m), op))
    && (forall op :: op in byOp ==> byOp[op] == CountsOf(gold, slots, m, op))
  }

  lemma {:induction false} GoldStep(gold: seq<Gold>, op: Op, i: nat)
    requires i < |gold|
    ensures |GoldWith(gold, op, i + 1)| == |GoldWith(gold, op, i)| + if gold[i].op == op then 1 else 0
  {
    OneMore(GoldWith(gold, op, i), GoldWith(gold, op, i + 1), i, gold[i].op == op);
  }

  lemma {:induction false} SlotStep(slots: seq<Slot>, aside: set<nat>, op: Op, i: nat)
    requires i < |slots|
    ensures |SlotsWith(slots, aside, op, i + 1)| == |SlotsWith(slots, aside, op, i)|
          + if i !in aside && Scorable(slots[i]) && slots[i].op.value == op then 1 else 0
  {
    OneMore(
      SlotsWith(slots, aside, op, i), SlotsWith(slots, aside, op, i + 1), i,
      i !in aside && Scorable(slots[i]) && slots[i].op.value == op);
  }

  lemma {:induction false} FoundStep(gold: seq<Gold>, m: map<nat, nat>, op: Op, i: nat)
    requires i < |gold|
    ensures |FoundWith(gold, m, op, i + 1)|
         == |FoundWith(gold, m, op, i)| + if i in m && gold[i].op == op then 1 else 0
  {
    OneMore(FoundWith(gold, m, op, i), FoundWith(gold, m, op, i + 1), i, i in m && gold[i].op == op);
  }

  lemma {:induction false} AgreeingStep(gold: seq<Gold>, slots: seq<Slot>, m: map<nat, nat>, op: Op, i: nat)
    requires InRange(gold, slots, m) && i < |gold|
    ensures |AgreeingWith(gold, slots, m, op, i + 1)| == |AgreeingWith(gold, slots, m, op, i)|
          + if i in m && gold[i].op == op && slots[m[i]].op == Some(op) then 1 else 0
  {
    OneMore(
      AgreeingWith(gold, slots, m, op, i), AgreeingWith(gold, slots, m, op, i + 1), i,
      i in m && gold[i].op == op && slots[m[i]].op == Some(op));
  }

  lemma {:induction false} CorrectStep(gold: seq<Gold>, slots: seq<Slot>, m: map<nat, nat>, op: Op, i: nat)
    requires InRange(gold, slots, m) && i < |gold|
    ensures |CorrectWith(gold, slots, m, op, i + 1)| == |CorrectWith(gold, slots, m, op, i)|
          + if i in m && gold[i].op == op && TargetOk(gold[i], slots[m[i]]) then 1 else 0
  {
    OneMore(
      CorrectWith(gold, slots, m, op, i), CorrectWith(gold, slots, m, op, i + 1), i,
      i in m && gold[i].op == op && TargetOk(gold[i], slots[m[i]]));
  }

  // The dict after some of the records were read, and what it then holds for one operation.

  ghost function AfterGold(byOp: map<Op, Counts>, gold: seq<Gold>, upTo: nat): (r: map<Op, Counts>)
    requires upTo <= |gold|
    ensures r.Keys == byOp.Keys
  {
    if upTo == 0 then byOp
    else
      var before, op := AfterGold(byOp, gold, upTo - 1), gold[upTo - 1].op;
      if op in byOp then before[op := before[op].(gold := before[op].gold + 1)] else before
  }

  lemma {:induction false} GoldIsCounted(byOp: map<Op, Counts>, gold: seq<Gold>, op: Op, upTo: nat)
    requires upTo <= |gold| && op in byOp
    ensures AfterGold(byOp, gold, upTo)[op] == byOp[op].(gold := byOp[op].gold + |GoldWith(gold, op, upTo)|)
  {
    if upTo == 0 {
      assert GoldWith(gold, op, 0) == {};
    } else {
      GoldIsCounted(byOp, gold, op, upTo - 1);
      GoldStep(gold, op, upTo - 1);
    }
  }

  method CountGold(byOp0: map<Op, Counts>, gold: seq<Gold>) returns (byOp: map<Op, Counts>, other: nat)
    requires OTHER !in byOp0 && forall g :: g in gold && g.op != OTHER ==> g.op in byOp0
    ensures byOp == AfterGold(byOp0, gold, |gold|)
    ensures other == |GoldWith(gold, OTHER, |gold|)|
  {
    byOp, other := byOp0, 0;
    assert GoldWith(gold, OTHER, 0) == {};
    for i := 0 to |gold|
      invariant byOp == AfterGold(byOp0, gold, i)
      invariant other == |GoldWith(gold, OTHER, i)|
    {
      GoldStep(gold, OTHER, i);
      var op := gold[i].op;
      if op != OTHER {
        byOp := byOp[op := byOp[op].(gold := byOp[op].gold + 1)];
      } else {
        other := other + 1;
      }
    }
  }

  ghost function AfterSlots(byOp: map<Op, Counts>, slots: seq<Slot>, aside: set<nat>, upTo: nat): (r: map<Op, Counts>)
    requires upTo <= |slots|
    ensures r.Keys == byOp.Keys
  {
    if upTo == 0 then byOp
    else
      var before, i := AfterSlots(byOp, slots, aside, upTo - 1), upTo - 1;
      if i !in aside && Scorable(slots[i]) && slots[i].op.value in byOp
      then before[slots[i].op.value := before[slots[i].op.value].(pred := before[slots[i].op.value].pred + 1)]
      else before
  }

  lemma {:induction false} SlotsAreCounted(byOp: map<Op, Counts>, slots: seq<Slot>, aside: set<nat>, op: Op, upTo: nat)
    requires upTo <= |slots| && op in byOp
    ensures AfterSlots(byOp, slots, aside, upTo)[op]
         == byOp[op].(pred := byOp[op].pred + |SlotsWith(slots, aside, op, upTo)|)
  {
    if upTo == 0 {
      assert SlotsWith(slots, aside, op, 0) == {};
    } else {
      SlotsAreCounted(byOp, slots, aside, op, upTo - 1);
      SlotStep(slots, aside, op, upTo - 1);
    }
  }

  method CountSlots(byOp0: map<Op, Counts>, slots: seq<Slot>, aside: set<nat>) returns (byOp: map<Op, Counts>)
    requires forall i: nat :: i < |slots| && i !in aside && Scorable(slots[i]) ==> slots[i].op.value in byOp0
    ensures byOp == AfterSlots(byOp0, slots, aside, |slots|)
  {
    byOp := byOp0;
    for i := 0 to |slots|
      invariant byOp == AfterSlots(byOp0, slots, aside, i)
    {
      if i !in aside && Scorable(slots[i]) {
        var op := slots[i].op.value;
        byOp := byOp[op := byOp[op].(pred := byOp[op].pred + 1)];
      }
    }
  }

  function WithPair(t: Counts, g: Gold, p: Slot): Counts {
    t.(found := t.found + 1,
       correct := t.correct + (if TargetOk(g, p) then 1 else 0),
       agree := t.agree + if p.op == Some(g.op) then 1 else 0)
  }

  ghost function AfterPairs(
    byOp: map<Op, Counts>, gold: seq<Gold>, slots: seq<Slot>, m: map<nat, nat>, upTo: nat): (r: map<Op, Counts>)
    requires InRange(gold, slots, m) && upTo <= |gold|
    ensures r.Keys == byOp.Keys
  {
    if upTo == 0 then byOp
    else
      var before, i := AfterPairs(byOp, gold, slots, m, upTo - 1), upTo - 1;
      if i in m && gold[i].op in byOp
      then before[gold[i].op := WithPair(before[gold[i].op], gold[i], slots[m[i]])]
      else before
  }

  lemma {:induction false} PairsAreCounted(
    byOp: map<Op, Counts>, gold: seq<Gold>, slots: seq<Slot>, m: map<nat, nat>, op: Op, upTo: nat)
    requires InRange(gold, slots, m) && upTo <= |gold| && op in byOp
    ensures AfterPairs(byOp, gold, slots, m, upTo)[op]
         == byOp[op].(found := byOp[op].found + |FoundWith(gold, m, op, upTo)|,
                      agree := byOp[op].agree + |AgreeingWith(gold, slots, m, op, upTo)|,
                      correct := byOp[op].correct + |CorrectWith(gold, slots, m, op, upTo)|)
  {
    if upTo == 0 {
      assert FoundWith(gold, m, op, 0) == {} && AgreeingWith(gold, slots, m, op, 0) == {};
      assert CorrectWith(gold, slots, m, op, 0) == {};
    } else {
      PairsAreCounted(byOp, gold, slots, m, op, upTo - 1);
      FoundStep(gold, m, op, upTo - 1);
      AgreeingStep(gold, slots, m, op, upTo - 1);
      CorrectStep(gold, slots, m, op, upTo - 1);
    }
  }

  method CountPairs(byOp0: map<Op, Counts>, gold: seq<Gold>, slots: seq<Slot>, m: map<nat, nat>)
    returns (byOp: map<Op, Counts>)
    requires InRange(gold, slots, m)
    requires OTHER !in byOp0 && forall g :: g in gold && g.op != OTHER ==> g.op in byOp0
    ensures byOp == AfterPairs(byOp0, gold, slots, m, |gold|)
  {
    byOp := byOp0;
    for i := 0 to |gold|
      invariant byOp == AfterPairs(byOp0, gold, slots, m, i)
    {
      if i in m && gold[i].op != OTHER {
        var g, p := gold[i], slots[m[i]];
        var t := byOp[g.op];
        t := t.(found := t.found + 1, correct := t.correct + if TargetOk(g, p) then 1 else 0);
        if p.op == Some(g.op) {
          t := t.(agree := t.agree + 1);
        }
        byOp := byOp[g.op := t];
      }
    }
  }

  lemma {:induction false} AllCounted(
    byOp: map<Op, Counts>, gold: seq<Gold>, slots: seq<Slot>, m: map<nat, nat>, op: Op)
    requires InRange(gold, slots, m) && op in byOp && byOp[op] == Counts(0, 0, 0, 0, 0)
    ensures
      var afterSlots := AfterSlots(AfterGold(byOp, gold, |gold|), slots, OnOther(gold, m), |slots|);
      AfterPairs(afterSlots, gold, slots, m, |gold|)[op] == CountsOf(gold, slots, m, op)
  {
    var afterGold := AfterGold(byOp, gold, |gold|);
    var afterSlots := AfterSlots(afterGold, slots, OnOther(gold, m), |slots|);
    GoldIsCounted(byOp, gold, op, |gold|);
    SlotsAreCounted(afterGold, slots, OnOther(gold, m), op, |slots|);
    PairsAreCounted(afterSlots, gold, slots, m, op, |gold|);
  }

  /** Counts gold, slots and pairs of one document pair per operation. */
  method Tally(gold: seq<Gold>, slots: seq<Slot>, m: map<nat, nat>)
    returns (byOp: map<Op, Counts>, goldOther: nat, predOnOther: nat)
    requires IsMatching(BySource, gold, slots, m)
    ensures IsTally(byOp, gold, slots, m)
    ensures goldOther == |GoldWith(gold, OTHER, |gold|)|
    ensures predOnOther == |OnOther(gold, m)| <= goldOther
    ensures AllSound(byOp)
  {
    var aside := set gi | gi in m && gold[gi].op == OTHER :: m[gi];
    assert aside == OnOther(gold, m);
    predOnOther := |aside|;
    SetAsideSlots(gold, slots, m);
    byOp := ZeroCounts(gold, slots, aside);
    ghost var start := byOp;
    OtherIsNotCounted(gold, slots, m);
    byOp, goldOther := CountGold(byOp, gold);
    byOp := CountSlots(byOp, slots, aside);
    byOp := CountPairs(byOp, gold, slots, m);
    forall op | op in byOp ensures byOp[op] == CountsOf(gold, slots, m, op) {
      AllCounted(start, gold, slots, m, op);
    }
    TallyIsSound(byOp, gold, slots, m);
  }

  method ZeroCounts(gold: seq<Gold>, slots: seq<Slot>, aside: set<nat>) returns (byOp: map<Op, Counts>)
    ensures forall op :: op in byOp <==> CountsOp(gold, slots, aside, op)
    ensures forall op :: op in byOp ==> byOp[op] == Counts(0, 0, 0, 0, 0)
    ensures forall g :: g in gold && g.op != OTHER ==> g.op in byOp
    ensures forall i: nat :: i < |slots| && i !in aside && Scorable(slots[i]) ==> slots[i].op.value in byOp
  {
    var ops := BASE_OPS
      + (set g | g in gold && g.op != OTHER :: g.op)
      + (set pi | 0 <= pi < |slots| && pi !in aside && Scorable(slots[pi]) :: slots[pi].op.value);
    byOp := map op | op in ops :: Counts(0, 0, 0, 0, 0);
  }

  lemma {:induction false} TallyIsSound(byOp: map<Op, Counts>, gold: seq<Gold>, slots: seq<Slot>, m: map<nat, nat>)
    requires IsMatching(BySource, gold, slots, m) && IsTally(byOp, gold, slots, m)
    ensures AllSound(byOp)
  {
    OtherIsNotCounted(gold, slots, m);
    forall op | op in byOp ensures byOp[op].Sound() {
      CountsAreSound(gold, slots, m, op);
    }
  }

  lemma {:induction false} OtherIsNotCounted(gold: seq<Gold>, slots: seq<Slot>, m: map<nat, nat>)
    requires InRange(gold, slots, m)
    ensures !CountsOp(gold, slots, OnOther(gold, m), OTHER)
  {
  }

  /** No more slots are set aside than there are gold records of op OTHER. */
  lemma {:induction false} SetAsideSlots(gold: seq<Gold>, slots: seq<Slot>, m: map<nat, nat>)
    requires IsMatching(BySource, gold, slots, m)
    ensures |OnOther(gold, m)| <= |GoldWith(gold, OTHER, |gold|)|
  {
    var back := map pi | pi in OnOther(gold, m) :: Server(gold, m, pi);
    InjectionBoundsDomain(back, GoldWith(gold, OTHER, |gold|));
    assert back.Keys == OnOther(gold, m);
    assert |back| == |back.Keys|;
  }

  ghost function Server(gold: seq<Gold>, m: map<nat, nat>, pi: nat): (gi: nat)
    requires forall gi :: gi in m ==> gi < |gold|
    requires pi in OnOther(gold, m)
    ensures gi in m && m[gi] == pi && gold[gi].op == OTHER
  {
    var gi :| gi in m && m[gi] == pi && gold[gi].op == OTHER;
    gi
  }

  // ---------------------------------------------------------------- totals

  datatype Field = InGold | InPred | InFound | InAgree | InCorrect

  function Get(c: Counts, k: Field): nat {
    match k
    case InGold => c.gold
    case InPred => c.pred
    case InFound => c.found
    case InAgree => c.agree
    case InCorrect => c.correct
  }

  function At(byOp: map<Op, Counts>, op: Op, k: Field): int {
    if op in byOp then Get(byOp[op], k) else 0
  }

  ghost function Column(byOp: map<Op, Counts>, k: Field): Op -> int {
    op => At(byOp, op, k)
  }

  /** One count summed over all operations: the "all" row of a block. */
  ghost function Total(byOp: map<Op, Counts>, k: Field): int {
    SumOver(byOp.Keys, Column(byOp, k))
  }

  /** The rates of the "all" row are defined as well. */
  lemma {:induction false} TotalsAreSound(byOp: map<Op, Counts>)
    requires AllSound(byOp)
    ensures Total(byOp, InFound) <= Total(byOp, InGold)
    ensures Total(byOp, InAgree) <= Total(byOp, InFound)
    ensures Total(byOp, InAgree) <= Total(byOp, InPred)
    ensures Total(byOp, InCorrect) <= Total(byOp, InFound)
  {
    SumAtMost(byOp.Keys, Column(byOp, InFound), Column(byOp, InGold));
    SumAtMost(byOp.Keys, Column(byOp, InAgree), Column(byOp, InFound));
    SumAtMost(byOp.Keys, Column(byOp, InAgree), Column(byOp, InPred));
    SumAtMost(byOp.Keys, Column(byOp, InCorrect), Column(byOp, InFound));
  }

  lemma {:induction false} TotalsAdd(a: map<Op, Counts>, b: map<Op, Counts>, sums: map<Op, Counts>, k: Field)
    requires sums.Keys == a.Keys + b.Keys
    requires forall op :: At(sums, op, k) == At(a, op, k) + At(b, op, k)
    ensures Total(sums, k) == Total(a, k) + Total(b, k)
  {
    SumPlus(sums.Keys, Column(a, k), Column(b, k), Column(sums, k));
    SumOverMore(a.Keys, sums.Keys, Column(a, k));
    SumOverMore(b.Keys, sums.Keys, Column(b, k));
  }

  /** The tally is added for all its operations but those still to do. */
  ghost predicate PartOfSums(totals: map<Op, Counts>, tally: map<Op, Counts>, sums: map<Op, Counts>, todo: set<Op>) {
    && todo <= tally.Keys
    && AllSound(sums)
    && sums.Keys == totals.Keys + (tally.Keys - todo)
    && forall op, k :: At(sums, op, k) == At(totals, op, k) + if op in todo then 0 else At(tally, op, k)
  }

  lemma {:induction false} AddedOne(
    totals: map<Op, Counts>, tally: map<Op, Counts>, sums: map<Op, Counts>, todo: set<Op>, op: Op)
    requires AllSound(tally) && PartOfSums(totals, tally, sums, todo) && op in todo
    ensures
      var next := sums[op := if op in sums then sums[op].Plus(tally[op]) else tally[op]];
      PartOfSums(totals, tally, next, todo - {op})
  {
    var added := if op in sums then sums[op].Plus(tally[op]) else tally[op];
    forall k ensures Get(added, k) == At(totals, op, k) + At(tally, op, k) {
      assert At(sums, op, k) == At(totals, op, k);
    }
  }

  /** Adds one pair's tally to the running totals. */
  method Accumulate(totals: map<Op, Counts>, tally: map<Op, Counts>) returns (sums: map<Op, Counts>)
    requires AllSound(totals) && AllSound(tally)
    ensures AllSound(sums)
    ensures sums.Keys == totals.Keys + tally.Keys
    ensures forall op, k :: At(sums, op, k) == At(totals, op, k) + At(tally, op, k)
    ensures forall k :: Total(sums, k) == Total(totals, k) + Total(tally, k)
  {
    sums := totals;
    var todo := tally.Keys;
    while todo != {}
      invariant PartOfSums(totals, tally, sums, todo)
    {
      var op :| op in todo;
      AddedOne(totals, tally, sums, todo, op);
      sums := sums[op := if op in sums then sums[op].Plus(tally[op]) else tally[op]];
      todo := todo - {op};
    }
    forall k { TotalsAdd(totals, tally, sums, k); }
  }

  // ---------------------------------------------------------------- the report

  ghost function Among(gold: seq<Gold>, at: set<nat>, op: Op, upTo: nat): set<nat>
    requires upTo <= |gold|
  {
    set gi: nat | gi < upTo && gi in at && gold[gi].op == op
  }

  ghost function ScoredAmong(gold: seq<Gold>, at: set<nat>, upTo: nat): set<nat>
    requires upTo <= |gold|
  {
    set gi: nat | gi < upTo && gi in at && gold[gi].op != OTHER
  }

  lemma {:induction false} AmongStep(gold: seq<Gold>, at: set<nat>, op: Op, i: nat)
    requires i < |gold|
    ensures |Among(gold, at, op, i + 1)| == |Among(gold, at, op, i)| + if i in at && gold[i].op == op then 1 else 0
  {
    OneMore(Among(gold, at, op, i), Among(gold, at, op, i + 1), i, i in at && gold[i].op == op);
  }

  lemma {:induction false} ScoredStep(gold: seq<Gold>, at: set<nat>, i: nat)
    requires i < |gold|
    ensures |ScoredAmong(gold, at, i + 1)|
         == |ScoredAmong(gold, at, i)| + if i in at && gold[i].op != OTHER then 1 else 0
  {
    OneMore(ScoredAmong(gold, at, i), ScoredAmong(gold, at, i + 1), i, i in at && gold[i].op != OTHER);
  }

  /** Counting gold records by operation counts every scored one once. */
  lemma {:induction false} ColumnCovers(gold: seq<Gold>, at: set<nat>, ops: set<Op>, f: Op -> int, upTo: nat)
    requires upTo <= |gold| && OTHER !in ops
    requires forall i :: 0 <= i < |gold| && gold[i].op != OTHER ==> gold[i].op in ops
    requires forall op :: op in ops ==> f(op) == |Among(gold, at, op, upTo)|
    ensures SumOver(ops, f) == |ScoredAmong(gold, at, upTo)|
    decreases upTo
  {
    if upTo == 0 {
      assert ScoredAmong(gold, at, 0) == {} && forall op :: Among(gold, at, op, 0) == {};
      SumOverMore({}, ops, f);
    } else {
      var i := upTo - 1;
      var g := (op: Op) => |Among(gold, at, op, i)|;
      ColumnCovers(gold, at, ops, g, i);
      forall op { AmongStep(gold, at, op, i); }
      ScoredStep(gold, at, i);
      if i in at && gold[i].op != OTHER {
        SumChangedAt(ops, g, f, gold[i].op);
      } else {
        SumSame(ops, f, g);
      }
    }
  }

  ghost function ScorableAmong(slots: seq<Slot>, aside: set<nat>, upTo: nat): set<nat>
    requires upTo <= |slots|
  {
    set pi: nat | pi < upTo && pi !in aside && Scorable(slots[pi])
  }

  lemma {:induction false} ScorableStep(slots: seq<Slot>, aside: set<nat>, i: nat)
    requires i < |slots|
    ensures |ScorableAmong(slots, aside, i + 1)|
         == |ScorableAmong(slots, aside, i)| + if i !in aside && Scorable(slots[i]) then 1 else 0
  {
    OneMore(ScorableAmong(slots, aside, i), ScorableAmong(slots, aside, i + 1), i,
      i !in aside && Scorable(slots[i]));
  }

  /** Counting slots by operation counts every scorable one that is not set aside once. */
  lemma {:induction false} SlotColumnCovers(slots: seq<Slot>, aside: set<nat>, ops: set<Op>, f: Op -> int, upTo: nat)
    requires upTo <= |slots|
    requires forall pi: nat :: pi < |slots| && pi !in aside && Scorable(slots[pi]) ==> slots[pi].op.value in ops
    requires forall op :: op in ops ==> f(op) == |SlotsWith(slots, aside, op, upTo)|
    ensures SumOver(ops, f) == |ScorableAmong(slots, aside, upTo)|
    decreases upTo
  {
    if upTo == 0 {
      assert ScorableAmong(slots, aside, 0) == {} && forall op :: SlotsWith(slots, aside, op, 0) == {};
      SumOverMore({}, ops, f);
    } else {
      var i := upTo - 1;
      var g := (op: Op) => |SlotsWith(slots, aside, op, i)|;
      SlotColumnCovers(slots, aside, ops, g, i);
      forall op { SlotStep(slots, aside, op, i); }
      ScorableStep(slots, aside, i);
      if i !in aside && Scorable(slots[i]) {
        SumChangedAt(ops, g, f, slots[i].op.value);
      } else {
        SumSame(ops, f, g);
      }
    }
  }

  // What the columns stand for, in terms of the records, the slots and the pairs alone.

  /** The gold records that are scored. */
  ghost function ScoredGold(gold: seq<Gold>): set<nat> {
    set gi: nat | gi < |gold| && gold[gi].op != OTHER
  }

  /** The scored gold records that were found. */
  ghost function ScoredFound(gold: seq<Gold>, m: map<nat, nat>): set<nat> {
    set gi: nat | gi < |gold| && gold[gi].op != OTHER && gi in m
  }

  /** The scored gold records whose slot names their operation. */
  ghost function ScoredAgreeing(gold: seq<Gold>, slots: seq<Slot>, m: map<nat, nat>): set<nat>
    requires InRange(gold, slots, m)
  {
    set gi: nat | gi < |gold| && gold[gi].op != OTHER && gi in m && slots[m[gi]].op == Some(gold[gi].op)
  }

  /** The scored gold records that have a target and whose slot names it. */
  ghost function ScoredCorrect(gold: seq<Gold>, slots: seq<Slot>, m: map<nat, nat>): set<nat>
    requires InRange(gold, slots, m)
  {
    set gi: nat | gi < |gold| && gold[gi].op != OTHER && gi in m
      && gold[gi].target.Some? && gold[gi].target.value != "" && slots[m[gi]].target == gold[gi].target
  }

  /** The slots that name an operation other than OTHER and are not paired with a record that is not scored. */
  ghost function ScoredSlots(gold: seq<Gold>, slots: seq<Slot>, m: map<nat, nat>): set<nat>
    requires InRange(gold, slots, m)
  {
    set pi: nat | pi < |slots| && slots[pi].op.Some? && slots[pi].op != Some(OTHER)
      && forall gi :: gi in m && m[gi] == pi ==> gold[gi].op != OTHER
  }

  ghost function Expected(gold: seq<Gold>, slots: seq<Slot>, m: map<nat, nat>, k: Field): int
    requires InRange(gold, slots, m)
  {
    match k
    case InGold => |ScoredGold(gold)|
    case InPred => |ScoredSlots(gold, slots, m)|
    case InFound => |ScoredFound(gold, m)|
    case InAgree => |ScoredAgreeing(gold, slots, m)|
    case InCorrect => |ScoredCorrect(gold, slots, m)|
  }

  lemma {:induction false} EveryOpCounts(
    byOp: map<Op, Counts>, gold: seq<Gold>, slots: seq<Slot>, m: map<nat, nat>)
    requires InRange(gold, slots, m) && IsTally(byOp, gold, slots, m)
    ensures OTHER !in byOp
    ensures forall i :: 0 <= i < |gold| && gold[i].op != OTHER ==> gold[i].op in byOp
    ensures forall pi: nat ::
      pi < |slots| && pi !in OnOther(gold, m) && Scorable(slots[pi]) ==> slots[pi].op.value in byOp
  {
    OtherIsNotCounted(gold, slots, m);
    forall i | 0 <= i < |gold| && gold[i].op != OTHER ensures gold[i].op in byOp {
      assert gold[i] in gold;
      assert CountsOp(gold, slots, OnOther(gold, m), gold[i].op);
    }
    forall pi: nat | pi < |slots| && pi !in OnOther(gold, m) && Scorable(slots[pi])
      ensures slots[pi].op.value in byOp
    {
      assert CountsOp(gold, slots, OnOther(gold, m), slots[pi].op.value);
    }
  }

  /** One column counts gold records, those at the places `at`. */
  lemma {:induction false} GoldColumn(
    byOp: map<Op, Counts>, gold: seq<Gold>, slots: seq<Slot>, m: map<nat, nat>, k: Field, at: set<nat>)
    requires IsMatching(BySource, gold, slots, m) && IsTally(byOp, gold, slots, m)
    requires forall op :: op in byOp ==> At(byOp, op, k) == |Among(gold, at, op, |gold|)|
    ensures Total(byOp, k) == |ScoredAmong(gold, at, |gold|)|
  {
    EveryOpCounts(byOp, gold, slots, m);
    ColumnCovers(gold, at, byOp.Keys, Column(byOp, k), |gold|);
  }

  lemma {:induction false} GoldColumnIs(
    byOp: map<Op, Counts>, gold: seq<Gold>, slots: seq<Slot>, m: map<nat, nat>)
    requires IsMatching(BySource, gold, slots, m) && IsTally(byOp, gold, slots, m)
    ensures Total(byOp, InGold) == |ScoredGold(gold)|
  {
    var at := Range(0, |gold|);
    forall op | op in byOp ensures At(byOp, op, InGold) == |Among(gold, at, op, |gold|)| {
      assert GoldWith(gold, op, |gold|) == Among(gold, at, op, |gold|);
    }
    GoldColumn(byOp, gold, slots, m, InGold, at);
    assert ScoredAmong(gold, at, |gold|) == ScoredGold(gold);
  }

  lemma {:induction false} FoundColumnIs(
    byOp: map<Op, Counts>, gold: seq<Gold>, slots: seq<Slot>, m: map<nat, nat>)
    requires IsMatching(BySource, gold, slots, m) && IsTally(byOp, gold, slots, m)
    ensures Total(byOp, InFound) == |ScoredFound(gold, m)|
  {
    var at := m.Keys;
    forall op | op in byOp ensures At(byOp, op, InFound) == |Among(gold, at, op, |gold|)| {
      assert FoundWith(gold, m, op, |gold|) == Among(gold, at, op, |gold|);
    }
    GoldColumn(byOp, gold, slots, m, InFound, at);
    assert ScoredAmong(gold, at, |gold|) == ScoredFound(gold, m);
  }

  lemma {:induction false} AgreeingColumnIs(
    byOp: map<Op, Counts>, gold: seq<Gold>, slots: seq<Slot>, m: map<nat, nat>)
    requires IsMatching(BySource, gold, slots, m) && IsTally(byOp, gold, slots, m)
    ensures Total(byOp, InAgree) == |ScoredAgreeing(gold, slots, m)|
  {
    var at := set gi | gi in m && slots[m[gi]].op == Some(gold[gi].op);
    forall op | op in byOp ensures At(byOp, op, InAgree) == |Among(gold, at, op, |gold|)| {
      assert byOp[op] == CountsOf(gold, slots, m, op);
      assert AgreeingWith(gold, slots, m, op, |gold|) == Among(gold, at, op, |gold|);
    }
    GoldColumn(byOp, gold, slots, m, InAgree, at);
    assert ScoredAmong(gold, at, |gold|) == ScoredAgreeing(gold, slots, m);
  }

  lemma {:induction false} CorrectColumnIs(
    byOp: map<Op, Counts>, gold: seq<Gold>, slots: seq<Slot>, m: map<nat, nat>)
    requires IsMatching(BySource, gold, slots, m) && IsTally(byOp, gold, slots, m)
    ensures Total(byOp, InCorrect) == |ScoredCorrect(gold, slots, m)|
  {
    var at := set gi | gi in m && TargetOk(gold[gi], slots[m[gi]]);
    forall op | op in byOp ensures At(byOp, op, InCorrect) == |Among(gold, at, op, |gold|)| {
      assert byOp[op] == CountsOf(gold, slots, m, op);
      assert CorrectWith(gold, slots, m, op, |gold|) == Among(gold, at, op, |gold|);
    }
    GoldColumn(byOp, gold, slots, m, InCorrect, at);
    assert ScoredAmong(gold, at, |gold|) == ScoredCorrect(gold, slots, m);
  }

  lemma {:induction false} PredColumnIs(
    byOp: map<Op, Counts>, gold: seq<Gold>, slots: seq<Slot>, m: map<nat, nat>)
    requires IsMatching(BySource, gold, slots, m) && IsTally(byOp, gold, slots, m)
    ensures Total(byOp, InPred) == |ScoredSlots(gold, slots, m)|
  {
    EveryOpCounts(byOp, gold, slots, m);
    ScorableSlots(gold, slots, m);
    forall op | op in byOp ensures Column(byOp, InPred)(op) == |SlotsWith(slots, OnOther(gold, m), op, |slots|)| {
      assert byOp[op] == CountsOf(gold, slots, m, op);
    }
    SlotColumnCovers(slots, OnOther(gold, m), byOp.Keys, Column(byOp, InPred), |slots|);
  }

  lemma {:induction false} ScorableSlots(gold: seq<Gold>, slots: seq<Slot>, m: map<nat, nat>)
    requires InRange(gold, slots, m)
    ensures ScorableAmong(slots, OnOther(gold, m), |slots|) == ScoredSlots(gold, slots, m)
  {
  }

  /** What every column adds up to, over all operations of a document. */
  lemma {:induction false} TallyCovers(
    byOp: map<Op, Counts>, gold: seq<Gold>, slots: seq<Slot>, m: map<nat, nat>, k: Field)
    requires IsMatching(BySource, gold, slots, m) && IsTally(byOp, gold, slots, m)
    ensures Total(byOp, k) == Expected(gold, slots, m, k)
  {
    match k
    case InGold => GoldColumnIs(byOp, gold, slots, m);
    case InPred => PredColumnIs(byOp, gold, slots, m);
    case InFound => FoundColumnIs(byOp, gold, slots, m);
    case InAgree => AgreeingColumnIs(byOp, gold, slots, m);
    case InCorrect => CorrectColumnIs(byOp, gold, slots, m);
  }

  /** The records counted as correct are the scored ones that the exact sweep paired. */
  lemma {:induction false} CorrectIsExact(gold: seq<Gold>, slots: seq<Slot>)
    ensures IsMatching(BySource, gold, slots, Pairing(gold, slots))
    ensures ScoredCorrect(gold, slots, Pairing(gold, slots))
         == set gi: nat | gi < |gold| && gold[gi].op != OTHER && gi in ExactPairing(gold, slots)
  {
    PairingIsMatching(gold, slots);
    var m := Pairing(gold, slots);
    assert ExactKeys(gold, slots, m) == ExactPairing(gold, slots).Keys;
  }

  datatype Prediction = Prediction(src: Address, target: Address, targets: seq<Address>, op: Option<Op>)
  datatype Document = Document(gold: seq<Gold>, preds: seq<Prediction>)

  function SlotsOf(p: Prediction): (slots: seq<Slot>)
    ensures |slots| == if p.targets == [] then 1 else |p.targets|
  {
    var targets := if p.targets == [] then [p.target] else p.targets;
    seq(|targets|, i requires 0 <= i < |targets| => Slot(p.src, targets[i], p.op))
  }

  /** One scoring slot per listed target. */
  function ExpandTargets(preds: seq<Prediction>): seq<Slot> {
    if preds == [] then [] else ExpandTargets(preds[..|preds| - 1]) + SlotsOf(preds[|preds| - 1])
  }

  /** The slots of a prediction: its source and operation, with each listed target or else the single one. */
  lemma {:induction false} SlotsOfPrediction(p: Prediction, i: nat)
    requires i < |SlotsOf(p)|
    ensures
      var slot := SlotsOf(p)[i];
      && (slot.src, slot.op) == (p.src, p.op)
      && (|p.targets| > 0 ==> i < |p.targets| && slot.target == p.targets[i])
      && (|p.targets| == 0 ==> slot.target == p.target)
  {
  }

  /** A prediction that lists several targets pairs with at most that many gold records. */
  lemma {:induction false} SlotBudget(gold: seq<Gold>, preds: seq<Prediction>, k: nat)
    requires k < |preds|
    ensures
      var slots, first, size := ExpandTargets(preds), |ExpandTargets(preds[..k])|, |SlotsOf(preds[k])|;
      && first + size <= |slots|
      && slots[first..first + size] == SlotsOf(preds[k])
      && |Served(Pairing(gold, slots), first, size)| <= size
  {
    ExpandedSlice(preds, k);
    PairingIsMatching(gold, ExpandTargets(preds));
    ServedBy(Pairing(gold, ExpandTargets(preds)), |ExpandTargets(preds[..k])|, |SlotsOf(preds[k])|);
  }

  /** The gold records that took one of `size` slots from `first` on. */
  ghost function Served(m: map<nat, nat>, first: nat, size: nat): set<nat> {
    set gi | gi in m && first <= m[gi] < first + size
  }

  lemma {:induction false} ServedBy(m: map<nat, nat>, first: nat, size: nat)
    requires Injective(m)
    ensures |Served(m, first, size)| <= size
  {
    var served := Served(m, first, size);
    var image := map gi | gi in served :: m[gi];
    RangeSize(first, first + size);
    InjectionBoundsDomain(image, Range(first, first + size));
    assert image.Keys == served;
    assert |image| == |image.Keys|;
  }

  lemma {:induction false} ExpandedSlice(preds: seq<Prediction>, k: nat)
    requires k < |preds|
    ensures
      var slots, first, size := ExpandTargets(preds), |ExpandTargets(preds[..k])|, |SlotsOf(preds[k])|;
      first + size <= |slots| && slots[first..first + size] == SlotsOf(preds[k])
  {
    ExpandedPrefix(preds, k + 1);
    assert preds[..k + 1][..k] == preds[..k];
    var slots, before := ExpandTargets(preds), ExpandTargets(preds[..k]);
    assert ExpandTargets(preds[..k + 1]) == before + SlotsOf(preds[k]) <= slots;
    assert (before + SlotsOf(preds[k]))[|before|..] == SlotsOf(preds[k]);
  }

  lemma {:induction false} ExpandedPrefix(preds: seq<Prediction>, k: nat)
    requires k <= |preds|
    ensures ExpandTargets(preds[..k]) <= ExpandTargets(preds)
  {
    if k < |preds| {
      var shorter := preds[..|preds| - 1];
      ExpandedPrefix(shorter, k);
      assert shorter[..k] == preds[..k];
    } else {
      assert preds[..k] == preds;
    }
  }

  /** What a column should count in one document: its gold sorted by note number, one slot per listed target. */
  ghost function CountIn(doc: Document, k: Field): int {
    var g, slots := StableSort(doc.gold, ByNote), ExpandTargets(doc.preds);
    PairingIsMatching(g, slots);
    Expected(g, slots, Pairing(g, slots), k)
  }

  /** The same over the first `upTo` documents. */
  ghost function CountInAll(docs: seq<Document>, k: Field, upTo: nat): int
    requires upTo <= |docs|
  {
    if upTo == 0 then 0 else CountInAll(docs, k, upTo - 1) + CountIn(docs[upTo - 1], k)
  }

  method ScoreDocument(doc: Document) returns (tally: map<Op, Counts>)
    ensures AllSound(tally)
    ensures forall k :: Total(tally, k) == CountIn(doc, k)
  {
    var g, slots := StableSort(doc.gold, ByNote), ExpandTargets(doc.preds);
    PairingIsMatching(g, slots);
    var m := Pairing(g, slots);
    var goldOther, predOnOther;
    tally, goldOther, predOnOther := Tally(g, slots, m);
    forall k { TallyCovers(tally, g, slots, m, k); }
  }

  /** The totals hold the counts of the first `i` documents. */
  ghost predicate Covers(totals: map<Op, Counts>, docs: seq<Document>, i: nat)
    requires i <= |docs|
  {
    AllSound(totals) && forall k :: Total(totals, k) == CountInAll(docs, k, i)
  }

  method AddDocument(totals: map<Op, Counts>, docs: seq<Document>, i: nat) returns (sums: map<Op, Counts>)
    requires i < |docs| && Covers(totals, docs, i)
    ensures Covers(sums, docs, i + 1)
  {
    var tally := ScoreDocument(docs[i]);
    sums := Accumulate(totals, tally);
    forall k ensures Total(sums, k) == CountInAll(docs, k, i + 1) {
      assert Total(sums, k) == Total(totals, k) + Total(tally, k);
    }
  }

  /** The totals over all document pairs: every rate is defined, and every column counts the records,
      pairs or slots it stands for, each once. */
  method Score(docs: seq<Document>) returns (totals: map<Op, Counts>)
    ensures AllSound(totals)
    ensures forall k :: Total(totals, k) == CountInAll(docs, k, |docs|)
    ensures Total(totals, InFound) <= Total(totals, InGold)
    ensures Total(totals, InAgree) <= Total(totals, InPred)
    ensures Total(totals, InCorrect) <= Total(totals, InFound)
  {
    totals := map[];
    forall k ensures Total(totals, k) == CountInAll(docs, k, 0) {
    }
    for i := 0 to |docs|
      invariant Covers(totals, docs, i)
    {
      totals := AddDocument(totals, docs, i);
    }
    TotalsAreSound(totals);
  }
}
