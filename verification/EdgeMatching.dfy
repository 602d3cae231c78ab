/** Pairing of gold amendment edges with predicted ones (evals/contract_graph/score.py).

    Gold and scoring slots of one document pair are matched one-to-one in two greedy sweeps:
    first on (source, target), then on the source alone. */
module EdgeMatching {
  import opened Basics

  type Address = Option<string>

  /** Operations the report knows by name, and any other name a predictor may use. */
  datatype Op = SUBSTITUTION | INSERTION | REPEAL | REJECTION | SCOPE_LIMIT | OTHER | Unlisted(name: string)

  datatype Gold = Gold(noteNo: int, src: Address, target: Address, op: Op)
  datatype Slot = Slot(src: Address, target: Address, op: Option<Op>)

  datatype Sweep = Exact | BySource

  /** A target address that Python counts as true. */
  predicate Given(a: Address) {
    a.Some? && a.value != ""
  }

  /** The gold records a sweep looks at. */
  predicate Tries(sweep: Sweep, g: Gold) {
    sweep.Exact? ==> Given(g.target)
  }

  predicate Fits(sweep: Sweep, g: Gold, p: Slot) {
    p.src == g.src && (sweep.Exact? ==> p.target == g.target)
  }

  /** Two gold records that one slot could serve. */
  predicate SameClass(sweep: Sweep, g: Gold, h: Gold) {
    g.src == h.src && (sweep.Exact? ==> g.target == h.target)
  }

  // ---------------------------------------------------------------- specification

  /** Index of the first slot from `from` on that is free and fits, or |preds|. */
  function FirstFree(sweep: Sweep, g: Gold, preds: seq<Slot>, used: set<nat>, from: nat): (r: nat)
    requires from <= |preds|
    ensures from <= r <= |preds|
    ensures r < |preds| ==> r !in used && Fits(sweep, g, preds[r])
    ensures forall i :: from <= i < r && Fits(sweep, g, preds[i]) ==> i in used
    decreases |preds| - from
  {
    if from == |preds| || (from !in used && Fits(sweep, g, preds[from])) then from
    else FirstFree(sweep, g, preds, used, from + 1)
  }

  function TakeFor(sweep: Sweep, gold: seq<Gold>, preds: seq<Slot>, paired: map<nat, nat>, gi: nat): map<nat, nat>
    requires gi < |gold|
  {
    if gi in paired || !Tries(sweep, gold[gi]) then paired
    else
      var pi := FirstFree(sweep, gold[gi], preds, paired.Values, 0);
      if pi < |preds| then paired[gi := pi] else paired
  }

  function Swept(sweep: Sweep, gold: seq<Gold>, preds: seq<Slot>, paired: map<nat, nat>, upTo: nat): map<nat, nat>
    requires upTo <= |gold|
  {
    if upTo == 0 then paired
    else TakeFor(sweep, gold, preds, Swept(sweep, gold, preds, paired, upTo - 1), upTo - 1)
  }

  /** Gold index to slot index, after both sweeps. */
  function Pairing(gold: seq<Gold>, preds: seq<Slot>): map<nat, nat> {
    Swept(BySource, gold, preds, ExactPairing(gold, preds), |gold|)
  }

  function ExactPairing(gold: seq<Gold>, preds: seq<Slot>): map<nat, nat> {
    Swept(Exact, gold, preds, map[], |gold|)
  }

  /** A one-to-one assignment of gold to slots that fit. */
  ghost predicate IsMatching(sweep: Sweep, gold: seq<Gold>, preds: seq<Slot>, m: map<nat, nat>) {
    && Injective(m)
    && forall gi :: gi in m ==>
         gi < |gold| && m[gi] < |preds| && Tries(sweep, gold[gi]) && Fits(sweep, gold[gi], preds[m[gi]])
  }

  /** No slot is left free for a gold record (among the first `upTo`) that was left out. */
  ghost predicate Saturated(sweep: Sweep, gold: seq<Gold>, preds: seq<Slot>, m: map<nat, nat>, upTo: nat)
    requires upTo <= |gold|
  {
    forall gi: nat, pi: nat ::
      gi < upTo && pi < |preds| && gi !in m && Tries(sweep, gold[gi]) && Fits(sweep, gold[gi], preds[pi])
      ==> pi in m.Values
  }

  /** The gold records that `m` pairs on both addresses. */
  ghost function ExactKeys(gold: seq<Gold>, preds: seq<Slot>, m: map<nat, nat>): set<nat>
    requires IsMatching(BySource, gold, preds, m)
  {
    set gi | gi in m && Tries(Exact, gold[gi]) && Fits(Exact, gold[gi], preds[m[gi]])
  }

  // ---------------------------------------------------------------- the two sweeps

  /** The pairs a sweep added to `start`. */
  ghost predicate Added(
    sweep: Sweep, gold: seq<Gold>, preds: seq<Slot>, start: map<nat, nat>, m: map<nat, nat>, upTo: nat)
    requires upTo <= |gold|
  {
    && (forall gi :: gi in start ==> gi in m && m[gi] == start[gi])
    && (forall gi :: gi in m && gi !in start ==>
          gi < upTo && m[gi] < |preds| && Tries(sweep, gold[gi]) && Fits(sweep, gold[gi], preds[m[gi]]))
  }

  /** Every added pair took the first slot that was free. */
  ghost predicate FirstFit(sweep: Sweep, gold: seq<Gold>, preds: seq<Slot>, start: map<nat, nat>, m: map<nat, nat>) {
    forall gi: nat, pi: nat ::
      gi in m && gi !in start && gi < |gold| && pi < m[gi] && pi < |preds| && Fits(sweep, gold[gi], preds[pi])
      ==> pi in m.Values
  }

  /** Gold records of one class are served in their order, by slots in their order. */
  ghost predicate InOrder(sweep: Sweep, gold: seq<Gold>, start: map<nat, nat>, m: map<nat, nat>) {
    forall a: nat, b: nat ::
      a < b < |gold| && b in m && b !in start && a !in start && Tries(sweep, gold[a])
      && SameClass(sweep, gold[a], gold[b])
      ==> a in m && m[a] < m[b]
  }

  ghost predicate SweepInvariant(
    sweep: Sweep, gold: seq<Gold>, preds: seq<Slot>, start: map<nat, nat>, m: map<nat, nat>, upTo: nat)
    requires upTo <= |gold|
  {
    && Injective(m)
    && Added(sweep, gold, preds, start, m, upTo)
    && Saturated(sweep, gold, preds, m, upTo)
    && FirstFit(sweep, gold, preds, start, m)
    && InOrder(sweep, gold, start, m)
  }

  lemma {:induction false} Extended(m: map<nat, nat>, k: nat, v: nat)
    requires Injective(m) && k !in m && v !in m.Values
    ensures Injective(m[k := v])
    ensures m[k := v].Values == m.Values + {v}
  {
    var n := m[k := v];
    forall x | x in m.Values + {v} ensures x in n.Values {
      if x == v {
        assert n[k] == v;
      } else {
        var j :| j in m && m[j] == x;
        assert n[j] == x;
      }
    }
    forall a, b | a in n && b in n && n[a] == n[b] ensures a == b {
      assert a in m ==> m[a] in m.Values;
      assert b in m ==> m[b] in m.Values;
    }
  }

  lemma {:induction false} TakenInOrder(
    sweep: Sweep, gold: seq<Gold>, preds: seq<Slot>, start: map<nat, nat>, m: map<nat, nat>, gi: nat, pi: nat)
    requires gi < |gold| && pi < |preds| && gi !in m && pi !in m.Values
    requires Tries(sweep, gold[gi]) && Fits(sweep, gold[gi], preds[pi])
    requires SweepInvariant(sweep, gold, preds, start, m, gi)
    ensures InOrder(sweep, gold, start, m[gi := pi])
  {
  }

  lemma {:induction false} TakenFirstFit(
    sweep: Sweep, gold: seq<Gold>, preds: seq<Slot>, start: map<nat, nat>, m: map<nat, nat>, gi: nat)
    requires gi < |gold| && gi !in m && Injective(m)
    requires FirstFit(sweep, gold, preds, start, m)
    requires FirstFree(sweep, gold[gi], preds, m.Values, 0) < |preds|
    ensures FirstFit(sweep, gold, preds, start, m[gi := FirstFree(sweep, gold[gi], preds, m.Values, 0)])
  {
    Extended(m, gi, FirstFree(sweep, gold[gi], preds, m.Values, 0));
  }

  lemma {:induction false} TakenSaturated(
    sweep: Sweep, gold: seq<Gold>, preds: seq<Slot>, m: map<nat, nat>, gi: nat, pi: nat)
    requires gi < |gold| && gi !in m && pi !in m.Values && Injective(m)
    requires Saturated(sweep, gold, preds, m, gi)
    ensures Saturated(sweep, gold, preds, m[gi := pi], gi + 1)
  {
    Extended(m, gi, pi);
  }

  /** The record takes the first free slot. */
  lemma {:induction false} TakenKeeps(
    sweep: Sweep, gold: seq<Gold>, preds: seq<Slot>, start: map<nat, nat>, m: map<nat, nat>, gi: nat, pi: nat)
    requires gi < |gold| && gi !in m && Tries(sweep, gold[gi])
    requires pi == FirstFree(sweep, gold[gi], preds, m.Values, 0) && pi < |preds|
    requires SweepInvariant(sweep, gold, preds, start, m, gi)
    ensures SweepInvariant(sweep, gold, preds, start, m[gi := pi], gi + 1)
  {
    Extended(m, gi, pi);
    TakenSaturated(sweep, gold, preds, m, gi, pi);
    TakenInOrder(sweep, gold, preds, start, m, gi, pi);
    TakenFirstFit(sweep, gold, preds, start, m, gi);
  }

  lemma {:induction false} TakeForKeeps(
    sweep: Sweep, gold: seq<Gold>, preds: seq<Slot>, start: map<nat, nat>, m: map<nat, nat>, gi: nat,
    next: map<nat, nat>)
    requires gi < |gold| && next == TakeFor(sweep, gold, preds, m, gi)
    requires SweepInvariant(sweep, gold, preds, start, m, gi)
    ensures SweepInvariant(sweep, gold, preds, start, next, gi + 1)
  {
    if gi !in m && Tries(sweep, gold[gi]) {
      var pi := FirstFree(sweep, gold[gi], preds, m.Values, 0);
      if pi < |preds| {
        TakenKeeps(sweep, gold, preds, start, m, gi, pi);
      }
    }
  }

  lemma {:induction false} SweepStarts(sweep: Sweep, gold: seq<Gold>, preds: seq<Slot>, start: map<nat, nat>)
    requires Injective(start)
    ensures SweepInvariant(sweep, gold, preds, start, start, 0)
  {
  }

  lemma {:induction false} SweptKeeps(
    sweep: Sweep, gold: seq<Gold>, preds: seq<Slot>, start: map<nat, nat>, upTo: nat, m: map<nat, nat>)
    requires upTo <= |gold| && Injective(start) && m == Swept(sweep, gold, preds, start, upTo)
    ensures SweepInvariant(sweep, gold, preds, start, m, upTo)
  {
    if upTo == 0 {
      SweepStarts(sweep, gold, preds, start);
    } else {
      var before := Swept(sweep, gold, preds, start, upTo - 1);
      SweptKeeps(sweep, gold, preds, start, upTo - 1, before);
      TakeForKeeps(sweep, gold, preds, start, before, upTo - 1, m);
    }
  }

  /** The exact sweep is one-to-one on both addresses and leaves no exact pair behind. */
  lemma {:induction false} ExactPairingIsMatching(gold: seq<Gold>, preds: seq<Slot>)
    ensures IsMatching(Exact, gold, preds, ExactPairing(gold, preds))
    ensures Saturated(Exact, gold, preds, ExactPairing(gold, preds), |gold|)
    ensures InOrder(Exact, gold, map[], ExactPairing(gold, preds))
  {
    SweptKeeps(Exact, gold, preds, map[], |gold|, ExactPairing(gold, preds));
  }

  /** The final result is one-to-one on source addresses; its exact pairs are those of the first sweep. */
  lemma {:induction false} PairingIsMatching(gold: seq<Gold>, preds: seq<Slot>)
    ensures IsMatching(BySource, gold, preds, Pairing(gold, preds))
    ensures Saturated(BySource, gold, preds, Pairing(gold, preds), |gold|)
    ensures InOrder(BySource, gold, ExactPairing(gold, preds), Pairing(gold, preds))
    ensures ExactKeys(gold, preds, Pairing(gold, preds)) == ExactPairing(gold, preds).Keys
  {
    ExactPairingIsMatching(gold, preds);
    var exact := ExactPairing(gold, preds);
    SweptKeeps(BySource, gold, preds, exact, |gold|, Pairing(gold, preds));
    SecondSweepAddsNoExactPair(gold, preds, exact, Pairing(gold, preds));
  }

  lemma {:induction false} SecondSweepAddsNoExactPair(
    gold: seq<Gold>, preds: seq<Slot>, exact: map<nat, nat>, m: map<nat, nat>)
    requires IsMatching(Exact, gold, preds, exact) && Saturated(Exact, gold, preds, exact, |gold|)
    requires Injective(m) && Added(BySource, gold, preds, exact, m, |gold|)
    ensures IsMatching(BySource, gold, preds, m)
    ensures ExactKeys(gold, preds, m) == exact.Keys
  {
  }

  // ---------------------------------------------------------------- optimality

  ghost predicate ClassServed(sweep: Sweep, gold: seq<Gold>, m: map<nat, nat>, g: Gold) {
    forall k: nat :: k < |gold| && Tries(sweep, gold[k]) && SameClass(sweep, g, gold[k]) ==> k in m
  }

  /** Sends each pair of a rival matching to a pair of the saturated one, within its class. */
  ghost function Rival(
    sweep: Sweep, gold: seq<Gold>, preds: seq<Slot>, m: map<nat, nat>, rival: map<nat, nat>, gi: nat): (k: nat)
    requires IsMatching(sweep, gold, preds, m) && Saturated(sweep, gold, preds, m, |gold|)
    requires IsMatching(sweep, gold, preds, rival) && gi in rival
    ensures k in m && SameClass(sweep, gold[gi], gold[k])
    ensures if ClassServed(sweep, gold, m, gold[gi]) then k == gi else m[k] == rival[gi]
  {
    if ClassServed(sweep, gold, m, gold[gi]) then gi
    else
      assert rival[gi] in m.Values;
      var k :| k in m && m[k] == rival[gi];
      k
  }

  /** A saturated matching is as large as any other one. */
  lemma {:induction false} SaturatedIsLargest(
    sweep: Sweep, gold: seq<Gold>, preds: seq<Slot>, m: map<nat, nat>, rival: map<nat, nat>)
    requires IsMatching(sweep, gold, preds, m) && Saturated(sweep, gold, preds, m, |gold|)
    requires IsMatching(sweep, gold, preds, rival)
    ensures |rival| <= |m|
  {
    var image := map gi | gi in rival :: Rival(sweep, gold, preds, m, rival, gi);
    forall a, b | a in image && b in image && image[a] == image[b] ensures a == b {
      assert ClassServed(sweep, gold, m, gold[a]) == ClassServed(sweep, gold, m, gold[b]);
    }
    InjectionBoundsDomain(image, m.Keys);
    assert image.Keys == rival.Keys;
    assert |image| == |rival|;
  }

  lemma {:induction false} ExactPairingIsLargest(gold: seq<Gold>, preds: seq<Slot>, rival: map<nat, nat>)
    requires IsMatching(BySource, gold, preds, rival)
    ensures |ExactKeys(gold, preds, rival)| <= |ExactPairing(gold, preds).Keys|
  {
    ExactPairingIsMatching(gold, preds);
    var exactRival := map gi | gi in ExactKeys(gold, preds, rival) :: rival[gi];
    SaturatedIsLargest(Exact, gold, preds, ExactPairing(gold, preds), exactRival);
    assert exactRival.Keys == ExactKeys(gold, preds, rival);
    assert |exactRival.Keys| == |exactRival|;
  }

  lemma {:induction false} MatchingIsOptimal(gold: seq<Gold>, preds: seq<Slot>, rival: map<nat, nat>)
    requires IsMatching(BySource, gold, preds, rival)
    ensures IsMatching(BySource, gold, preds, Pairing(gold, preds))
    ensures |rival| <= |Pairing(gold, preds)|
    ensures |ExactKeys(gold, preds, rival)| <= |ExactKeys(gold, preds, Pairing(gold, preds))|
  {
    PairingIsMatching(gold, preds);
    SaturatedIsLargest(BySource, gold, preds, Pairing(gold, preds), rival);
    ExactPairingIsLargest(gold, preds, rival);
  }

  /** One-to-one, and each pair has one source address. */
  ghost predicate PairsUp(gold: seq<Gold>, preds: seq<Slot>, m: map<nat, nat>) {
    && (forall a, b :: a in m && b in m && m[a] == m[b] ==> a == b)
    && forall gi :: gi in m ==> gi < |gold| && m[gi] < |preds| && gold[gi].src == preds[m[gi]].src
  }

  /** The paired records that have a target, the one their slot names. */
  ghost function OnTarget(gold: seq<Gold>, preds: seq<Slot>, m: map<nat, nat>): set<nat>
    requires PairsUp(gold, preds, m)
  {
    set gi | gi in m && gold[gi].target !in [None, Some("")] && gold[gi].target == preds[m[gi]].target
  }

  lemma {:induction false} MatchingOfAddresses(gold: seq<Gold>, preds: seq<Slot>, m: map<nat, nat>)
    ensures IsMatching(BySource, gold, preds, m) <==> PairsUp(gold, preds, m)
    ensures PairsUp(gold, preds, m) ==> ExactKeys(gold, preds, m) == OnTarget(gold, preds, m)
  {
  }

  /** Main result: over all one-to-one matchings that agree on the source address, the greedy
      pairing has the largest number of pairs and, at once, of pairs exact on both addresses. */
  lemma {:induction false} PairingIsOptimal(gold: seq<Gold>, preds: seq<Slot>, rival: map<nat, nat>)
    requires PairsUp(gold, preds, rival)
    ensures PairsUp(gold, preds, Pairing(gold, preds))
    ensures |rival| <= |Pairing(gold, preds)|
    ensures |OnTarget(gold, preds, rival)| <= |OnTarget(gold, preds, Pairing(gold, preds))|
    ensures OnTarget(gold, preds, Pairing(gold, preds)) == ExactPairing(gold, preds).Keys
  {
    MatchingOfAddresses(gold, preds, rival);
    MatchingIsOptimal(gold, preds, rival);
    PairingIsMatching(gold, preds);
    MatchingOfAddresses(gold, preds, Pairing(gold, preds));
  }

  // ---------------------------------------------------------------- the algorithm

  /** The matcher first sorts gold records by note number. */
  predicate ByNote(g: Gold, h: Gold) { g.noteNo <= h.noteNo }

  function PairsOf(gold: seq<Gold>, preds: seq<Slot>, m: map<nat, nat>, upTo: nat): seq<(Gold, Slot)>
    requires upTo <= |gold| && forall gi :: gi in m ==> m[gi] < |preds|
  {
    if upTo == 0 then []
    else PairsOf(gold, preds, m, upTo - 1) + if upTo - 1 in m then [(gold[upTo - 1], preds[m[upTo - 1]])] else []
  }

  /** The search for the first unused slot that fits. */
  method FindFree(sweep: Sweep, g: Gold, preds: seq<Slot>, used: array<bool>, taken: set<nat>) returns (pi: nat)
    requires used.Length == |preds|
    requires forall i :: 0 <= i < |preds| ==> used[i] == (i in taken)
    ensures pi == FirstFree(sweep, g, preds, taken, 0)
  {
    pi := 0;
    while pi < |preds| && (used[pi] || !Fits(sweep, g, preds[pi]))
      invariant 0 <= pi <= |preds|
      invariant FirstFree(sweep, g, preds, taken, 0) == FirstFree(sweep, g, preds, taken, pi)
    {
      pi := pi + 1;
    }
  }

  /** One greedy sweep over the gold records, marking `used` slots in place. */
  method RunSweep(sweep: Sweep, gold: seq<Gold>, preds: seq<Slot>, used: array<bool>, start: map<nat, nat>)
    returns (paired: map<nat, nat>)
    requires used.Length == |preds|
    requires Injective(start)
    requires forall pi :: 0 <= pi < |preds| ==> used[pi] == (pi in start.Values)
    requires forall gi :: gi in start ==> start[gi] < |preds|
    modifies used
    ensures paired == Swept(sweep, gold, preds, start, |gold|)
    ensures forall pi :: 0 <= pi < |preds| ==> used[pi] == (pi in paired.Values)
    ensures forall gi :: gi in paired ==> paired[gi] < |preds|
    ensures Injective(paired)
  {
    paired := start;
    var gi := 0;
    while gi < |gold|
      invariant 0 <= gi <= |gold|
      invariant paired == Swept(sweep, gold, preds, start, gi)
      invariant forall pi :: 0 <= pi < |preds| ==> used[pi] == (pi in paired.Values)
      invariant forall k :: k in paired ==> paired[k] < |preds|
      invariant Injective(paired)
    {
      if gi !in paired && Tries(sweep, gold[gi]) {
        var pi := FindFree(sweep, gold[gi], preds, used, paired.Values);
        if pi < |preds| {
          Extended(paired, gi, pi);
          used[pi] := true;
          paired := paired[gi := pi];
        }
      }
      gi := gi + 1;
    }
  }

  method ListGold(gold: seq<Gold>, preds: seq<Slot>, paired: map<nat, nat>)
    returns (pairs: seq<(Gold, Slot)>, missed: seq<Gold>)
    requires forall gi :: gi in paired ==> paired[gi] < |preds|
    ensures pairs == PairsOf(gold, preds, paired, |gold|)
    ensures missed == Dropped(gold, paired.Keys, |gold|)
  {
    pairs, missed := [], [];
    for gi := 0 to |gold|
      invariant pairs == PairsOf(gold, preds, paired, gi)
      invariant missed == Dropped(gold, paired.Keys, gi)
    {
      if gi in paired {
        pairs := pairs + [(gold[gi], preds[paired[gi]])];
      } else {
        missed := missed + [gold[gi]];
      }
    }
  }

  method ListFree(preds: seq<Slot>, used: array<bool>, taken: set<nat>) returns (unmatched: seq<Slot>)
    requires used.Length == |preds|
    requires forall pi :: 0 <= pi < |preds| ==> used[pi] == (pi in taken)
    ensures unmatched == Dropped(preds, taken, |preds|)
  {
    unmatched := [];
    for pi := 0 to |preds|
      invariant unmatched == Dropped(preds, taken, pi)
    {
      if !used[pi] {
        unmatched := unmatched + [preds[pi]];
      }
    }
  }

  /** The matcher: pairs, missed gold and unmatched slots. */
  method Match(gold: seq<Gold>, preds: seq<Slot>)
    returns (pairs: seq<(Gold, Slot)>, missed: seq<Gold>, unmatched: seq<Slot>)
    ensures
      var g := StableSort(gold, ByNote);
      var m := Pairing(g, preds);
      && (forall gi :: gi in m ==> m[gi] < |preds|)
      && pairs == PairsOf(g, preds, m, |g|)
      && missed == Dropped(g, m.Keys, |g|)
      && unmatched == Dropped(preds, m.Values, |preds|)
  {
    var g := StableSort(gold, ByNote);
    var used := new bool[|preds|](_ => false);
    var paired := RunSweep(Exact, g, preds, used, map[]);
    paired := RunSweep(BySource, g, preds, used, paired);
    pairs, missed := ListGold(g, preds, paired);
    unmatched := ListFree(preds, used, paired.Values);
  }

  // ---------------------------------------------------------------- conservation

  function Firsts(pairs: seq<(Gold, Slot)>): seq<Gold> {
    seq(|pairs|, i requires 0 <= i < |pairs| => pairs[i].0)
  }

  function Seconds(pairs: seq<(Gold, Slot)>): seq<Slot> {
    seq(|pairs|, i requires 0 <= i < |pairs| => pairs[i].1)
  }

  lemma {:induction false} PairedGold(gold: seq<Gold>, preds: seq<Slot>, m: map<nat, nat>, upTo: nat)
    requires upTo <= |gold| && forall gi :: gi in m ==> m[gi] < |preds|
    ensures Firsts(PairsOf(gold, preds, m, upTo)) == Kept(gold, m.Keys, upTo)
  {
    if upTo != 0 {
      PairedGold(gold, preds, m, upTo - 1);
    }
  }

  ghost function UsedUpTo(m: map<nat, nat>, upTo: nat): set<nat> {
    set gi | gi in m && gi < upTo :: m[gi]
  }

  lemma {:induction false} PairedSlots(gold: seq<Gold>, preds: seq<Slot>, m: map<nat, nat>, upTo: nat)
    requires upTo <= |gold| && Injective(m) && forall gi :: gi in m ==> m[gi] < |preds|
    ensures multiset(Seconds(PairsOf(gold, preds, m, upTo))) == multiset(Kept(preds, UsedUpTo(m, upTo), |preds|))
  {
    if upTo == 0 {
      KeepingNothing(preds, UsedUpTo(m, 0), |preds|);
    } else {
      PairedSlots(gold, preds, m, upTo - 1);
      var before := PairsOf(gold, preds, m, upTo - 1);
      if upTo - 1 in m {
        var pi := m[upTo - 1];
        assert UsedUpTo(m, upTo) == UsedUpTo(m, upTo - 1) + {pi};
        KeepingOneMore(preds, UsedUpTo(m, upTo - 1), pi, |preds|);
        assert Seconds(PairsOf(gold, preds, m, upTo)) == Seconds(before) + [preds[pi]];
        MultisetOfAppend(Seconds(before), preds[pi]);
      } else {
        assert UsedUpTo(m, upTo) == UsedUpTo(m, upTo - 1);
        assert PairsOf(gold, preds, m, upTo) == before;
      }
    }
  }

  lemma {:induction false} GoldIsConserved(gold: seq<Gold>, preds: seq<Slot>, m: map<nat, nat>)
    requires forall gi :: gi in m ==> m[gi] < |preds|
    ensures multiset(gold)
      == multiset(Firsts(PairsOf(gold, preds, m, |gold|))) + multiset(Dropped(gold, m.Keys, |gold|))
  {
    PairedGold(gold, preds, m, |gold|);
    KeptAndDropped(gold, m.Keys, |gold|);
    assert gold[..|gold|] == gold;
  }

  lemma {:induction false} SlotsAreConserved(gold: seq<Gold>, preds: seq<Slot>, m: map<nat, nat>)
    requires Injective(m) && forall gi :: gi in m ==> gi < |gold| && m[gi] < |preds|
    ensures multiset(preds)
         == multiset(Seconds(PairsOf(gold, preds, m, |gold|))) + multiset(Dropped(preds, m.Values, |preds|))
  {
    PairedSlots(gold, preds, m, |gold|);
    assert UsedUpTo(m, |gold|) == m.Values;
    KeptAndDropped(preds, m.Values, |preds|);
    assert preds[..|preds|] == preds;
  }

  /** The three lists the matcher returns lose and repeat nothing of what it was given. */
  lemma {:induction false} MatchConserves(gold: seq<Gold>, preds: seq<Slot>)
    ensures
      var g := StableSort(gold, ByNote);
      var m := Pairing(g, preds);
      && IsMatching(BySource, g, preds, m)
      && multiset(gold) == multiset(Firsts(PairsOf(g, preds, m, |g|))) + multiset(Dropped(g, m.Keys, |g|))
      && multiset(preds) == multiset(Seconds(PairsOf(g, preds, m, |g|))) + multiset(Dropped(preds, m.Values, |preds|))
  {
    var g := StableSort(gold, ByNote);
    SortIsPermutation(gold, ByNote);
    PairingIsMatching(g, preds);
    GoldIsConserved(g, preds, Pairing(g, preds));
    SlotsAreConserved(g, preds, Pairing(g, preds));
  }

  // ---------------------------------------------------------------- order of service

  lemma Somewhere(s: seq<Gold>, sorted: seq<Gold>, k: nat) returns (i: nat)
    requires k < |s| && multiset(sorted) == multiset(s)
    ensures i < |sorted| && sorted[i] == s[k]
  {
    assert s[k] in multiset(sorted);
    i :| i < |sorted| && sorted[i] == s[k];
  }

  /** Gold records with smaller note numbers, and earlier ones with the same, stand first after sorting. */
  lemma {:induction false} StandsFirst(gold: seq<Gold>, a: nat, b: nat) returns (i: nat, j: nat)
    requires a < |gold| && b < |gold|
    requires gold[a].noteNo < gold[b].noteNo || (gold[a].noteNo == gold[b].noteNo && a < b)
    ensures i < j < |StableSort(gold, ByNote)|
    ensures StableSort(gold, ByNote)[i] == gold[a] && StableSort(gold, ByNote)[j] == gold[b]
  {
    var sorted := StableSort(gold, ByNote);
    SortIsPermutation(gold, ByNote);
    if gold[a].noteNo < gold[b].noteNo {
      i := Somewhere(gold, sorted, a);
      j := Somewhere(gold, sorted, b);
      assert j < i ==> ByNote(sorted[j], sorted[i]);
    } else {
      TiedInOrder(gold, ByNote, a, b);
      i, j := Positions(sorted, gold[a], gold[b]);
    }
  }

  /** Of two gold records with one source address the one with the smaller note number, or the earlier
      one of equal number, is served first, and by an earlier slot: in the exact sweep when the targets
      agree as well, in the second sweep when neither had an exact partner. */
  lemma {:induction false} ServedInNoteOrder(gold: seq<Gold>, preds: seq<Slot>, a: nat, b: nat)
    returns (i: nat, j: nat)
    requires a < |gold| && b < |gold| && gold[a].src == gold[b].src
    requires gold[a].noteNo < gold[b].noteNo || (gold[a].noteNo == gold[b].noteNo && a < b)
    ensures
      var sorted := StableSort(gold, ByNote);
      var exact, all := ExactPairing(sorted, preds), Pairing(sorted, preds);
      && i < j < |sorted| && sorted[i] == gold[a] && sorted[j] == gold[b]
      && (gold[a].target == gold[b].target && j in exact ==> i in exact && exact[i] < exact[j])
      && (j in all && i !in exact && j !in exact ==> i in all && all[i] < all[j])
  {
    i, j := StandsFirst(gold, a, b);
    var sorted := StableSort(gold, ByNote);
    ExactPairingIsMatching(sorted, preds);
    PairingIsMatching(sorted, preds);
  }
}
