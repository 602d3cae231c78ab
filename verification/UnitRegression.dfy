/** Two comparisons of current unit outcomes with a baseline: unit by unit
    (evals/clause_frame_scoring.py, `compare_units`) and item by item
    (evals/unit_metrics.py, `diff_regressions`). */
module UnitRegression {
  import opened Basics

  datatype Metric =
    | KeyWrongDefinite | PairFalseDuplicate | CitationExtra | ValueFabricated | CitationValid | CertaintySafety
    | PairPrecision(disposition: nat)
    | Named(name: nat)

  datatype Identity = Identity(metric: Metric, item: nat, unit: nat)

  /** `missing` marks the stand-in for a unit that is no longer reported. */
  datatype Unit = Unit(id: Identity, passed: bool, cluster: nat, heldout: bool, missing: bool)

  datatype Spec = Spec(metric: Metric, threshold: real, unitFloor: nat, maxFailures: Option<nat>)

  predicate Tripwire(spec: Spec) {
    spec.maxFailures == Some(0) || spec.threshold == 1.0
  }

  // ---------------------------------------------------------------- the index by identity

  ghost predicate UniqueIds(units: seq<Unit>) {
    forall i, j :: 0 <= i < j < |units| ==> units[i].id != units[j].id
  }

  function ById(units: seq<Unit>): (m: map<Identity, Unit>)
    ensures forall k :: k in m ==> m[k].id == k
  {
    if units == [] then map[] else ById(units[..|units| - 1])[units[|units| - 1].id := units[|units| - 1]]
  }

  predicate Reports(units: seq<Unit>, k: Identity) {
    exists i :: 0 <= i < |units| && units[i].id == k
  }

  lemma {:induction false} ByIdKeys(units: seq<Unit>, k: Identity)
    ensures k in ById(units) <==> Reports(units, k)
  {
    if units != [] {
      var init, last := units[..|units| - 1], units[|units| - 1];
      ByIdKeys(init, k);
      if Reports(units, k) && last.id != k {
        var i :| 0 <= i < |units| && units[i].id == k;
        assert init[i].id == k;
      }
      if Reports(init, k) {
        var i :| 0 <= i < |init| && init[i].id == k;
        assert units[i].id == k;
      }
      assert units[|units| - 1] == last;
    }
  }

  lemma {:induction false} ByIdFinds(units: seq<Unit>, i: nat)
    requires UniqueIds(units) && i < |units|
    ensures units[i].id in ById(units) && ById(units)[units[i].id] == units[i]
  {
    if i < |units| - 1 {
      ByIdFinds(units[..|units| - 1], i);
    }
  }

  method Index(units: seq<Unit>) returns (r: Outcome<map<Identity, Unit>>)
    ensures r.Returns? <==> UniqueIds(units)
    ensures r.Returns? ==> r.value == ById(units)
  {
    var indexed := map[];
    for i := 0 to |units|
      invariant UniqueIds(units[..i]) && indexed == ById(units[..i])
    {
      ByIdKeys(units[..i], units[i].id);
      if units[i].id in indexed {
        assert !UniqueIds(units) by {
          var k :| 0 <= k < |units[..i]| && units[..i][k].id == units[i].id;
        }
        return Raises;
      }
      indexed := indexed[units[i].id := units[i]];
      assert units[..i + 1][..i] == units[..i];
      assert forall k :: 0 <= k < i ==> units[..i][k].id != units[i].id;
    }
    assert units[..|units|] == units;
    return Returns(indexed);
  }

  // ---------------------------------------------------------------- unit by unit

  /** The baseline unit passed and is now failing or gone. */
  predicate IsLost(before: Unit, now: map<Identity, Unit>) {
    before.passed && (before.id !in now || !now[before.id].passed)
  }

  function StandIn(before: Unit, now: map<Identity, Unit>): (u: Unit)
  {
    if before.id in now then now[before.id] else before.(passed := false, missing := true)
  }

  function Lost(baseline: seq<Unit>, now: map<Identity, Unit>, upTo: nat): seq<Unit>
    requires upTo <= |baseline|
  {
    if upTo == 0 then []
    else if IsLost(baseline[upTo - 1], now) then Lost(baseline, now, upTo - 1) + [StandIn(baseline[upTo - 1], now)]
    else Lost(baseline, now, upTo - 1)
  }

  predicate Tripped(specs: seq<Spec>, m: Metric) {
    exists i :: 0 <= i < |specs| && specs[i].metric == m && Tripwire(specs[i])
  }

  /** A failing unit of a tripwire metric that the baseline did not report. */
  predicate IsNewFailure(u: Unit, before: map<Identity, Unit>, specs: seq<Spec>) {
    !u.passed && u.id !in before && Tripped(specs, u.id.metric)
  }

  function NewFailures(current: seq<Unit>, before: map<Identity, Unit>, specs: seq<Spec>, upTo: nat): seq<Unit>
    requires upTo <= |current|
  {
    if upTo == 0 then []
    else if IsNewFailure(current[upTo - 1], before, specs) then
      NewFailures(current, before, specs, upTo - 1) + [current[upTo - 1]]
    else NewFailures(current, before, specs, upTo - 1)
  }

  /** A dictionary keyed by identity, in insertion order. */
  function Put(dict: seq<Unit>, u: Unit): seq<Unit> {
    if dict == [] then [u]
    else if dict[0].id == u.id then [u] + dict[1..]
    else [dict[0]] + Put(dict[1..], u)
  }

  lemma {:induction false} PutNew(dict: seq<Unit>, u: Unit)
    requires !Reports(dict, u.id)
    ensures Put(dict, u) == dict + [u]
  {
    if dict != [] {
      assert dict[0].id != u.id;
      forall i | 0 <= i < |dict[1..]| ensures dict[1..][i].id != u.id {
        assert dict[1..][i] == dict[i + 1];
      }
      PutNew(dict[1..], u);
    }
  }

  lemma {:induction false} PutAgain(dict: seq<Unit>, u: Unit)
    requires u in dict && forall i :: 0 <= i < |dict| && dict[i].id == u.id ==> dict[i] == u
    ensures Put(dict, u) == dict
  {
    if dict[0].id != u.id {
      assert forall i :: 0 <= i < |dict[1..]| ==> dict[1..][i] == dict[i + 1];
      PutAgain(dict[1..], u);
    }
  }

  lemma {:induction false} LostUnits(baseline: seq<Unit>, now: map<Identity, Unit>, upTo: nat, k: nat)
    requires upTo <= |baseline| && k < |Lost(baseline, now, upTo)|
    requires forall id :: id in now ==> now[id].id == id
    ensures var u := Lost(baseline, now, upTo)[k];
      Reports(baseline[..upTo], u.id) && (u.id in now ==> u == now[u.id])
  {
    var before := Lost(baseline, now, upTo - 1);
    if k < |before| {
      LostUnits(baseline, now, upTo - 1, k);
      var i :| 0 <= i < upTo - 1 && baseline[..upTo - 1][i].id == before[k].id;
      assert baseline[..upTo][i].id == before[k].id;
    } else {
      assert baseline[..upTo][upTo - 1].id == Lost(baseline, now, upTo)[k].id;
    }
  }

  lemma {:induction false} LostIsListed(baseline: seq<Unit>, now: map<Identity, Unit>, upTo: nat, i: nat)
    requires i < upTo <= |baseline| && IsLost(baseline[i], now)
    ensures StandIn(baseline[i], now) in Lost(baseline, now, upTo)
  {
    if i < upTo - 1 {
      LostIsListed(baseline, now, upTo - 1, i);
    }
  }

  lemma {:induction false} NewFailuresAreReported(
    current: seq<Unit>, before: map<Identity, Unit>, specs: seq<Spec>, upTo: nat, k: nat)
    requires upTo <= |current| && k < |NewFailures(current, before, specs, upTo)|
    ensures var u := NewFailures(current, before, specs, upTo)[k];
      u in current[..upTo] && u.id !in before
  {
    var earlier := NewFailures(current, before, specs, upTo - 1);
    if k < |earlier| {
      NewFailuresAreReported(current, before, specs, upTo - 1, k);
      assert current[..upTo - 1] <= current[..upTo];
    } else {
      assert current[..upTo][upTo - 1] == current[upTo - 1];
    }
  }

  lemma {:induction false} NotYetLost(baseline: seq<Unit>, now: map<Identity, Unit>, i: nat)
    requires i < |baseline| && UniqueIds(baseline)
    requires forall id :: id in now ==> now[id].id == id
    ensures !Reports(Lost(baseline, now, i), baseline[i].id)
  {
    var dict := Lost(baseline, now, i);
    forall k | 0 <= k < |dict| ensures dict[k].id != baseline[i].id {
      LostUnits(baseline, now, i, k);
      var j :| 0 <= j < |baseline[..i]| && baseline[..i][j].id == dict[k].id;
      assert baseline[j].id == dict[k].id;
    }
  }

  lemma {:induction false} NotYetNew(current: seq<Unit>, before: map<Identity, Unit>, specs: seq<Spec>, j: nat)
    requires j < |current| && UniqueIds(current)
    ensures !Reports(NewFailures(current, before, specs, j), current[j].id)
  {
    var dict := NewFailures(current, before, specs, j);
    forall k | 0 <= k < |dict| ensures dict[k].id != current[j].id {
      NewFailuresAreReported(current, before, specs, j, k);
      var i :| 0 <= i < |current[..j]| && current[..j][i] == dict[k];
      assert current[i] == dict[k];
    }
  }

  /** The next lost unit is not yet in the dictionary. */
  lemma {:induction false} NextLost(baseline: seq<Unit>, now: map<Identity, Unit>, i: nat)
    requires i < |baseline| && UniqueIds(baseline)
    requires forall id :: id in now ==> now[id].id == id
    ensures IsLost(baseline[i], now)
        ==> Put(Lost(baseline, now, i), StandIn(baseline[i], now)) == Lost(baseline, now, i + 1)
  {
    NotYetLost(baseline, now, i);
    if IsLost(baseline[i], now) {
      PutNew(Lost(baseline, now, i), StandIn(baseline[i], now));
    }
  }

  /** An entry of the lost units with the identity of a current unit is that unit. */
  lemma {:induction false} LostEntry(baseline: seq<Unit>, current: seq<Unit>, j: nat, k: nat)
    requires UniqueIds(current) && j < |current|
    requires k < |Lost(baseline, ById(current), |baseline|)|
    requires Lost(baseline, ById(current), |baseline|)[k].id == current[j].id
    ensures Lost(baseline, ById(current), |baseline|)[k] == current[j]
    ensures current[j].id in ById(baseline)
  {
    ByIdFinds(current, j);
    LostUnits(baseline, ById(current), |baseline|, k);
    assert baseline[..|baseline|] == baseline;
    ByIdKeys(baseline, current[j].id);
  }

  lemma {:induction false} LostAgain(baseline: seq<Unit>, current: seq<Unit>, j: nat)
    requires UniqueIds(baseline) && UniqueIds(current) && j < |current| && !current[j].passed
    requires current[j].id in ById(baseline) && ById(baseline)[current[j].id].passed
    ensures current[j] in Lost(baseline, ById(current), |baseline|)
  {
    ByIdFinds(current, j);
    ByIdKeys(baseline, current[j].id);
    var i :| 0 <= i < |baseline| && baseline[i].id == current[j].id;
    ByIdFinds(baseline, i);
    LostIsListed(baseline, ById(current), |baseline|, i);
  }

  /** A failing tripwire unit is already in the dictionary or it is one the baseline did not report. */
  lemma {:induction false} NextFailure(baseline: seq<Unit>, current: seq<Unit>, specs: seq<Spec>, j: nat)
    requires UniqueIds(baseline) && UniqueIds(current) && j < |current|
    requires !current[j].passed && Tripped(specs, current[j].id.metric)
    requires current[j].id in ById(baseline) ==> ById(baseline)[current[j].id].passed
    ensures var before, now := ById(baseline), ById(current);
      Put(Lost(baseline, now, |baseline|) + NewFailures(current, before, specs, j), current[j])
        == Lost(baseline, now, |baseline|) + NewFailures(current, before, specs, j + 1)
  {
    var before, u := ById(baseline), current[j];
    var lost, added := Lost(baseline, ById(current), |baseline|), NewFailures(current, before, specs, j);
    NotYetNew(current, before, specs, j);
    forall k | 0 <= k < |lost| && lost[k].id == u.id ensures lost[k] == u && u.id in before {
      LostEntry(baseline, current, j, k);
    }
    if u.id in before {
      LostAgain(baseline, current, j);
      PutAgain(lost + added, u);
    } else {
      PutNew(lost + added, u);
      ConcatAssoc(lost, added, [u]);
    }
  }

  function Compared(baseline: seq<Unit>, current: seq<Unit>, specs: seq<Spec>): seq<Unit> {
    Lost(baseline, ById(current), |baseline|) + NewFailures(current, ById(baseline), specs, |current|)
  }

  method CompareUnits(baseline: seq<Unit>, current: seq<Unit>, specs: seq<Spec>) returns (r: Outcome<seq<Unit>>)
    ensures r.Returns? <==> UniqueIds(baseline) && UniqueIds(current)
    ensures r.Returns? ==> r.value == Compared(baseline, current, specs)
  {
    var oldIndex := Index(baseline);
    if oldIndex.Raises? { return Raises; }
    var newIndex := Index(current);
    if newIndex.Raises? { return Raises; }
    var before, now := oldIndex.value, newIndex.value;
    var regressions: seq<Unit> := [];
    for i := 0 to |baseline|
      invariant regressions == Lost(baseline, now, i)
    {
      NextLost(baseline, now, i);
      if IsLost(baseline[i], now) {
        regressions := Put(regressions, StandIn(baseline[i], now));
      }
    }
    var tripwires := set i | 0 <= i < |specs| && Tripwire(specs[i]) :: specs[i].metric;
    for j := 0 to |current|
      invariant regressions == Lost(baseline, now, |baseline|) + NewFailures(current, before, specs, j)
    {
      var u := current[j];
      if u.id.metric in tripwires && !u.passed && (u.id !in before || before[u.id].passed) {
        NextFailure(baseline, current, specs, j);
        regressions := Put(regressions, u);
      }
    }
    return Returns(regressions);
  }

  // ---------------------------------------------------------------- item by item

  function Of(units: seq<Unit>, m: Metric): seq<Unit> {
    if units == [] then []
    else Of(units[..|units| - 1], m) + if units[|units| - 1].id.metric == m then [units[|units| - 1]] else []
  }

  lemma {:induction false} OfMember(units: seq<Unit>, m: Metric, u: Unit)
    ensures u in Of(units, m) <==> u in units && u.id.metric == m
  {
    if units != [] {
      OfMember(units[..|units| - 1], m, u);
      assert units == units[..|units| - 1] + [units[|units| - 1]];
    }
  }

  ghost predicate ItemPassed(units: seq<Unit>, item: nat) {
    exists u :: u in units && u.id.item == item && u.passed
  }

  ghost predicate HasItem(units: seq<Unit>, item: nat) {
    exists u :: u in units && u.id.item == item
  }

  ghost predicate ItemsOf(m: map<nat, bool>, units: seq<Unit>) {
    && (forall k :: k in m <==> HasItem(units, k))
    && (forall k :: k in m ==> (m[k] <==> ItemPassed(units, k)))
  }

  lemma {:induction false} OneMoreItem(m: map<nat, bool>, units: seq<Unit>, u: Unit)
    requires ItemsOf(m, units)
    ensures var item := u.id.item;
      ItemsOf(m[item := (item in m && m[item]) || u.passed], units + [u])
  {
  }

  /** Whether any unit of an item passed. */
  method ItemOutcomes(units: seq<Unit>) returns (m: map<nat, bool>)
    ensures ItemsOf(m, units)
  {
    m := map[];
    for i := 0 to |units|
      invariant ItemsOf(m, units[..i])
    {
      var item := units[i].id.item;
      OneMoreItem(m, units[..i], units[i]);
      assert units[..i] + [units[i]] == units[..i + 1];
      m := m[item := (item in m && m[item]) || units[i].passed];
    }
    assert units[..|units|] == units;
  }

  /** The failing units of a tripwire metric that did not fail before. */
  ghost predicate IsTrip(before: seq<Unit>, u: Unit) {
    !u.passed && !exists b :: b in before && !b.passed && b.id.item == u.id.item && b.id.unit == u.id.unit
  }

  /** The failing units of an item that passed before and has no passing unit any more. */
  ghost predicate IsItemLoss(before: seq<Unit>, now: seq<Unit>, u: Unit) {
    !u.passed && ItemPassed(before, u.id.item) && !ItemPassed(now, u.id.item)
  }

  ghost function Trips(before: seq<Unit>, now: seq<Unit>, upTo: nat): seq<Unit>
    requires upTo <= |now|
  {
    if upTo == 0 then []
    else Trips(before, now, upTo - 1) + if IsTrip(before, now[upTo - 1]) then [now[upTo - 1]] else []
  }

  ghost function ItemLosses(before: seq<Unit>, now: seq<Unit>, upTo: nat): seq<Unit>
    requires upTo <= |now|
  {
    if upTo == 0 then []
    else ItemLosses(before, now, upTo - 1) + if IsItemLoss(before, now, now[upTo - 1]) then [now[upTo - 1]] else []
  }

  ghost function OfMetric(baseline: seq<Unit>, current: seq<Unit>, spec: Spec): seq<Unit> {
    var before, now := Of(baseline, spec.metric), Of(current, spec.metric);
    if Tripwire(spec) then Trips(before, now, |now|) else ItemLosses(before, now, |now|)
  }

  method DiffTripwire(before: seq<Unit>, now: seq<Unit>) returns (r: seq<Unit>)
    ensures r == Trips(before, now, |now|)
  {
    var oldFailures := set u | u in before && !u.passed :: (u.id.item, u.id.unit);
    r := [];
    for i := 0 to |now|
      invariant r == Trips(before, now, i)
    {
      var u := now[i];
      if !u.passed && (u.id.item, u.id.unit) !in oldFailures {
        r := r + [u];
      }
    }
  }

  method DiffItems(before: seq<Unit>, now: seq<Unit>) returns (r: seq<Unit>)
    ensures r == ItemLosses(before, now, |now|)
  {
    var oldItems := ItemOutcomes(before);
    var newItems := ItemOutcomes(now);
    r := [];
    for i := 0 to |now|
      invariant r == ItemLosses(before, now, i)
    {
      var u := now[i];
      var item := u.id.item;
      assert HasItem(now, item);
      assert ItemPassed(before, item) ==> HasItem(before, item);
      if item in oldItems && oldItems[item] && !newItems[item] && !u.passed {
        r := r + [u];
      }
    }
  }

  /** The specifications by metric: a later one replaces an earlier one and keeps its place. */
  function ByMetric(specs: seq<Spec>): (r: seq<Spec>) {
    if specs == [] then [] else PutSpec(ByMetric(specs[..|specs| - 1]), specs[|specs| - 1])
  }

  function PutSpec(dict: seq<Spec>, spec: Spec): seq<Spec> {
    if dict == [] then [spec]
    else if dict[0].metric == spec.metric then [spec] + dict[1..]
    else [dict[0]] + PutSpec(dict[1..], spec)
  }

  function Flat(parts: seq<seq<Unit>>): seq<Unit> {
    if parts == [] then [] else Flat(parts[..|parts| - 1]) + parts[|parts| - 1]
  }

  ghost function PerMetric(baseline: seq<Unit>, current: seq<Unit>, specs: seq<Spec>): (parts: seq<seq<Unit>>)
    ensures |parts| == |specs| && forall i :: 0 <= i < |specs| ==> parts[i] == OfMetric(baseline, current, specs[i])
  {
    if specs == [] then []
    else PerMetric(baseline, current, specs[..|specs| - 1]) + [OfMetric(baseline, current, specs[|specs| - 1])]
  }

  ghost function Differences(baseline: seq<Unit>, current: seq<Unit>, specs: seq<Spec>): seq<Unit> {
    Flat(PerMetric(baseline, current, specs))
  }

  /** The versions of the gold set and the scorer, where the caller names them. */
  datatype Versions = Versions(golden: Option<nat>, scorer: Option<nat>)

  predicate Drifted(baseline: Versions, current: Versions) {
    || (baseline.golden.Some? && current.golden != baseline.golden)
    || (baseline.scorer.Some? && current.scorer != baseline.scorer)
  }

  method DiffRegressions(
    baseline: seq<Unit>, current: seq<Unit>, specs: seq<Spec>, baselineVersions: Versions, versions: Versions)
    returns (r: Outcome<seq<Unit>>)
    ensures r.Raises? <==> Drifted(baselineVersions, versions)
    ensures r.Returns? ==> r.value == Differences(baseline, current, ByMetric(specs))
  {
    if Drifted(baselineVersions, versions) {
      return Raises;
    }
    var byMetric := ByMetric(specs);
    var regressions: seq<Unit> := [];
    for i := 0 to |byMetric|
      invariant regressions == Differences(baseline, current, byMetric[..i])
    {
      assert byMetric[..i + 1][..i] == byMetric[..i];
      var spec := byMetric[i];
      var before, now := Of(baseline, spec.metric), Of(current, spec.metric);
      var found: seq<Unit>;
      if Tripwire(spec) {
        found := DiffTripwire(before, now);
      } else {
        found := DiffItems(before, now);
      }
      regressions := regressions + found;
    }
    assert byMetric[..|byMetric|] == byMetric;
    return Returns(regressions);
  }

  // ---------------------------------------------------------------- one gate implies the other

  lemma {:induction false} NothingLost(baseline: seq<Unit>, now: map<Identity, Unit>, upTo: nat)
    requires upTo <= |baseline|
    ensures Lost(baseline, now, upTo) == [] <==> forall i :: 0 <= i < upTo ==> !IsLost(baseline[i], now)
  {
    if upTo > 0 {
      NothingLost(baseline, now, upTo - 1);
    }
  }

  lemma {:induction false} NothingNew(current: seq<Unit>, before: map<Identity, Unit>, specs: seq<Spec>, upTo: nat)
    requires upTo <= |current|
    ensures NewFailures(current, before, specs, upTo) == []
       <==> forall i :: 0 <= i < upTo ==> !IsNewFailure(current[i], before, specs)
  {
    if upTo > 0 {
      NothingNew(current, before, specs, upTo - 1);
    }
  }

  lemma {:induction false} NothingTrips(before: seq<Unit>, now: seq<Unit>, upTo: nat)
    requires upTo <= |now|
    ensures Trips(before, now, upTo) == [] <==> forall i :: 0 <= i < upTo ==> !IsTrip(before, now[i])
  {
    if upTo > 0 {
      NothingTrips(before, now, upTo - 1);
    }
  }

  lemma {:induction false} NoItemLost(before: seq<Unit>, now: seq<Unit>, upTo: nat)
    requires upTo <= |now|
    ensures ItemLosses(before, now, upTo) == [] <==> forall i :: 0 <= i < upTo ==> !IsItemLoss(before, now, now[i])
  {
    if upTo > 0 {
      NoItemLost(before, now, upTo - 1);
    }
  }

  lemma {:induction false} NothingInFlat(parts: seq<seq<Unit>>)
    ensures Flat(parts) == [] <==> forall i :: 0 <= i < |parts| ==> parts[i] == []
  {
    if parts != [] {
      NothingInFlat(parts[..|parts| - 1]);
      assert |Flat(parts)| == |Flat(parts[..|parts| - 1])| + |parts[|parts| - 1]|;
    }
  }

  lemma {:induction false} NoDifference(baseline: seq<Unit>, current: seq<Unit>, specs: seq<Spec>)
    ensures Differences(baseline, current, specs) == []
       <==> forall i :: 0 <= i < |specs| ==> OfMetric(baseline, current, specs[i]) == []
  {
    NothingInFlat(PerMetric(baseline, current, specs));
  }

  lemma {:induction false} PutSpecMembers(dict: seq<Spec>, spec: Spec)
    ensures spec in PutSpec(dict, spec)
    ensures forall s :: s in PutSpec(dict, spec) ==> s == spec || s in dict
    ensures forall s :: s in dict && s.metric != spec.metric ==> s in PutSpec(dict, spec)
  {
    if dict != [] && dict[0].metric != spec.metric {
      PutSpecMembers(dict[1..], spec);
    }
  }

  ghost predicate UniqueMetrics(specs: seq<Spec>) {
    forall i, j :: 0 <= i < j < |specs| ==> specs[i].metric != specs[j].metric
  }

  lemma {:induction false} ByMetricMembers(specs: seq<Spec>)
    ensures forall s :: s in ByMetric(specs) ==> s in specs
    ensures UniqueMetrics(specs) ==> forall s :: s in specs ==> s in ByMetric(specs)
  {
    if specs != [] {
      var init, last := specs[..|specs| - 1], specs[|specs| - 1];
      ByMetricMembers(init);
      PutSpecMembers(ByMetric(init), last);
      assert specs == init + [last];
      assert UniqueMetrics(specs) ==> forall s :: s in init ==> s.metric != last.metric;
    }
  }

  /** Every unit that passed in the baseline still passes. */
  ghost predicate PassesAreKept(baseline: seq<Unit>, current: seq<Unit>) {
    forall b :: b in baseline && b.passed ==> exists u :: u in current && u.id == b.id && u.passed
  }

  /** No failing unit of a tripwire metric is new or passed before. */
  ghost predicate TripwiresHold(baseline: seq<Unit>, current: seq<Unit>, specs: seq<Spec>) {
    forall u :: u in current && !u.passed && Tripped(specs, u.id.metric)
      ==> exists b :: b in baseline && b.id == u.id && !b.passed
  }

  lemma {:induction false} FoundById(units: seq<Unit>, u: Unit)
    requires UniqueIds(units) && u in units
    ensures u.id in ById(units) && ById(units)[u.id] == u
  {
    var i :| 0 <= i < |units| && units[i] == u;
    ByIdFinds(units, i);
  }

  lemma {:induction false} ByIdIsListed(units: seq<Unit>, k: Identity)
    requires UniqueIds(units) && k in ById(units)
    ensures ById(units)[k] in units
  {
    ByIdKeys(units, k);
    var i :| 0 <= i < |units| && units[i].id == k;
    ByIdFinds(units, i);
  }

  /** What the comparison unit by unit checks, as one statement about the two lists. */
  lemma {:induction false} UnitGate(baseline: seq<Unit>, current: seq<Unit>, specs: seq<Spec>)
    requires UniqueIds(baseline) && UniqueIds(current)
    ensures Compared(baseline, current, specs) == []
       <==> PassesAreKept(baseline, current) && TripwiresHold(baseline, current, specs)
  {
    var before, now := ById(baseline), ById(current);
    NothingLost(baseline, now, |baseline|);
    NothingNew(current, before, specs, |current|);
    if Compared(baseline, current, specs) == [] {
      forall b | b in baseline && b.passed ensures exists u :: u in current && u.id == b.id && u.passed {
        assert !IsLost(b, now);
        ByIdIsListed(current, b.id);
      }
      forall u | u in current && !u.passed && Tripped(specs, u.id.metric)
        ensures exists b :: b in baseline && b.id == u.id && !b.passed
      {
        assert !IsNewFailure(u, before, specs);
        ByIdIsListed(baseline, u.id);
        FoundById(current, u);
        assert !IsLost(before[u.id], now);
      }
    }
    if PassesAreKept(baseline, current) && TripwiresHold(baseline, current, specs) {
      forall i | 0 <= i < |baseline| ensures !IsLost(baseline[i], now) {
        if baseline[i].passed {
          var u :| u in current && u.id == baseline[i].id && u.passed;
          FoundById(current, u);
        }
      }
      forall i | 0 <= i < |current| ensures !IsNewFailure(current[i], before, specs) {
        if !current[i].passed && Tripped(specs, current[i].id.metric) {
          var b :| b in baseline && b.id == current[i].id && !b.passed;
          FoundById(baseline, b);
        }
      }
    }
  }

  lemma {:induction false} TripwireMetric(baseline: seq<Unit>, current: seq<Unit>, specs: seq<Spec>, spec: Spec)
    requires TripwiresHold(baseline, current, specs) && spec in specs && Tripwire(spec)
    ensures OfMetric(baseline, current, spec) == []
  {
    var before, now := Of(baseline, spec.metric), Of(current, spec.metric);
    NothingTrips(before, now, |now|);
    forall i | 0 <= i < |now| ensures !IsTrip(before, now[i]) {
      var u := now[i];
      OfMember(current, spec.metric, u);
      if !u.passed {
        assert Tripped(specs, u.id.metric);
        var b :| b in baseline && b.id == u.id && !b.passed;
        OfMember(baseline, spec.metric, b);
      }
    }
  }

  lemma {:induction false} ItemMetric(baseline: seq<Unit>, current: seq<Unit>, spec: Spec)
    requires PassesAreKept(baseline, current) && !Tripwire(spec)
    ensures OfMetric(baseline, current, spec) == []
  {
    var before, now := Of(baseline, spec.metric), Of(current, spec.metric);
    NoItemLost(before, now, |now|);
    forall i | 0 <= i < |now| ensures !IsItemLoss(before, now, now[i]) {
      var item := now[i].id.item;
      if ItemPassed(before, item) {
        var b :| b in before && b.id.item == item && b.passed;
        OfMember(baseline, spec.metric, b);
        var u :| u in current && u.id == b.id && u.passed;
        OfMember(current, spec.metric, u);
      }
    }
  }

  lemma {:induction false} TripwiresFromItemGate(baseline: seq<Unit>, current: seq<Unit>, specs: seq<Spec>)
    requires UniqueMetrics(specs)
    requires Differences(baseline, current, ByMetric(specs)) == []
    ensures TripwiresHold(baseline, current, specs)
  {
    ByMetricMembers(specs);
    NoDifference(baseline, current, ByMetric(specs));
    forall u | u in current && !u.passed && Tripped(specs, u.id.metric)
      ensures exists b :: b in baseline && b.id == u.id && !b.passed
    {
      var s :| 0 <= s < |specs| && specs[s].metric == u.id.metric && Tripwire(specs[s]);
      var spec := specs[s];
      assert spec in ByMetric(specs);
      var before, now := Of(baseline, spec.metric), Of(current, spec.metric);
      NothingTrips(before, now, |now|);
      OfMember(current, spec.metric, u);
      assert !IsTrip(before, u);
      var b :| b in before && !b.passed && b.id.item == u.id.item && b.id.unit == u.id.unit;
      OfMember(baseline, spec.metric, b);
    }
  }

  /** Whatever the comparison unit by unit lets through, the comparison item by item lets through. */
  lemma {:induction false} UnitGateImpliesItemGate(baseline: seq<Unit>, current: seq<Unit>, specs: seq<Spec>)
    requires UniqueIds(baseline) && UniqueIds(current) && Compared(baseline, current, specs) == []
    ensures Differences(baseline, current, ByMetric(specs)) == []
  {
    UnitGate(baseline, current, specs);
    ByMetricMembers(specs);
    NoDifference(baseline, current, ByMetric(specs));
    forall i | 0 <= i < |ByMetric(specs)| ensures OfMetric(baseline, current, ByMetric(specs)[i]) == [] {
      var spec := ByMetric(specs)[i];
      if Tripwire(spec) {
        TripwireMetric(baseline, current, specs, spec);
      } else {
        ItemMetric(baseline, current, spec);
      }
    }
  }

  /** The first comparison is the second one plus: every unit that passed still passes. */
  lemma {:induction false} UnitGateIsItemGateAndKeptPasses(baseline: seq<Unit>, current: seq<Unit>, specs: seq<Spec>)
    requires UniqueIds(baseline) && UniqueIds(current) && UniqueMetrics(specs)
    ensures Compared(baseline, current, specs) == []
       <==> Differences(baseline, current, ByMetric(specs)) == [] && PassesAreKept(baseline, current)
  {
    UnitGate(baseline, current, specs);
    if Compared(baseline, current, specs) == [] {
      UnitGateImpliesItemGate(baseline, current, specs);
    } else if Differences(baseline, current, ByMetric(specs)) == [] {
      TripwiresFromItemGate(baseline, current, specs);
    }
  }

  // ---------------------------------------------------------------- what is reported, in terms of the two lists alone

  /** The metric tolerates no failing unit. */
  predicate NoErrorAllowed(spec: Spec) {
    spec.threshold == 1.0 || (spec.maxFailures.Some? && spec.maxFailures.value == 0)
  }

  /** A unit that passed before: the failing one that is reported now, or a stand-in when none is. */
  ghost predicate ReportedAsLost(baseline: seq<Unit>, current: seq<Unit>, b: Unit, u: Unit) {
    && b in baseline && b.passed && b.id == u.id && !u.passed
    && (u in current
        || ((forall c :: c in current ==> c.id != b.id) && u == Unit(b.id, false, b.cluster, b.heldout, true)))
  }

  /** A failing unit of a metric without tolerance that the baseline does not know. */
  ghost predicate ReportedAsNew(baseline: seq<Unit>, current: seq<Unit>, specs: seq<Spec>, u: Unit) {
    && u in current && !u.passed && (forall b :: b in baseline ==> b.id != u.id)
    && exists s :: s in specs && s.metric == u.id.metric && NoErrorAllowed(s)
  }

  lemma {:induction false} LostMembers(baseline: seq<Unit>, now: map<Identity, Unit>, upTo: nat, u: Unit)
    requires upTo <= |baseline|
    ensures u in Lost(baseline, now, upTo)
       <==> exists i :: 0 <= i < upTo && IsLost(baseline[i], now) && u == StandIn(baseline[i], now)
  {
    if upTo > 0 {
      LostMembers(baseline, now, upTo - 1, u);
    }
  }

  lemma {:induction false} NewMembers(
    current: seq<Unit>, before: map<Identity, Unit>, specs: seq<Spec>, upTo: nat, u: Unit)
    requires upTo <= |current|
    ensures u in NewFailures(current, before, specs, upTo)
       <==> exists i :: 0 <= i < upTo && IsNewFailure(current[i], before, specs) && u == current[i]
  {
    if upTo > 0 {
      NewMembers(current, before, specs, upTo - 1, u);
    }
  }

  lemma {:induction false} KeysOfUnits(units: seq<Unit>, k: Identity)
    ensures k in ById(units) <==> exists u :: u in units && u.id == k
  {
    ByIdKeys(units, k);
    if i :| 0 <= i < |units| && units[i].id == k {
      assert units[i] in units;
    }
  }

  lemma {:induction false} LostOfUnits(baseline: seq<Unit>, current: seq<Unit>, b: Unit, u: Unit)
    requires UniqueIds(baseline) && UniqueIds(current) && b in baseline
    ensures IsLost(b, ById(current)) && u == StandIn(b, ById(current)) <==> ReportedAsLost(baseline, current, b, u)
  {
    KeysOfUnits(current, b.id);
    if b.id in ById(current) {
      ByIdIsListed(current, b.id);
    }
    if u in current {
      FoundById(current, u);
    }
  }

  lemma {:induction false} TrippedOfSpecs(specs: seq<Spec>, m: Metric)
    ensures Tripped(specs, m) <==> exists s :: s in specs && s.metric == m && NoErrorAllowed(s)
  {
    if i :| 0 <= i < |specs| && specs[i].metric == m && Tripwire(specs[i]) {
      assert specs[i] in specs;
    }
  }

  /** Main result on the comparison unit by unit: what it reports. */
  lemma {:induction false} ReportedUnits(baseline: seq<Unit>, current: seq<Unit>, specs: seq<Spec>, u: Unit)
    requires UniqueIds(baseline) && UniqueIds(current)
    ensures u in Compared(baseline, current, specs)
       <==> (exists b :: ReportedAsLost(baseline, current, b, u)) || ReportedAsNew(baseline, current, specs, u)
  {
    var before, now := ById(baseline), ById(current);
    LostMembers(baseline, now, |baseline|, u);
    NewMembers(current, before, specs, |current|, u);
    forall b | b in baseline
      ensures IsLost(b, now) && u == StandIn(b, now) <==> ReportedAsLost(baseline, current, b, u)
    {
      LostOfUnits(baseline, current, b, u);
    }
    KeysOfUnits(baseline, u.id);
    TrippedOfSpecs(specs, u.id.metric);
    assert u in Lost(baseline, now, |baseline|) <==> exists b :: ReportedAsLost(baseline, current, b, u);
    assert u in NewFailures(current, before, specs, |current|) <==> ReportedAsNew(baseline, current, specs, u);
  }

  /** A failing unit reported by the comparison item by item: one that did not fail before, where no error is
      allowed; elsewhere one of an item that had a passing unit before and has none now. */
  ghost predicate ReportedOfMetric(baseline: seq<Unit>, current: seq<Unit>, spec: Spec, u: Unit) {
    && u in current && u.id.metric == spec.metric && !u.passed
    && if NoErrorAllowed(spec) then forall b :: b in baseline && b.id == u.id ==> b.passed
       else
         && (exists b :: b in baseline && b.id.metric == spec.metric && b.id.item == u.id.item && b.passed)
         && (forall c :: c in current && c.id.metric == spec.metric && c.id.item == u.id.item ==> !c.passed)
  }

  lemma {:induction false} TripMembers(before: seq<Unit>, now: seq<Unit>, upTo: nat, u: Unit)
    requires upTo <= |now|
    ensures u in Trips(before, now, upTo) <==> u in now[..upTo] && IsTrip(before, u)
  {
    if upTo > 0 {
      TripMembers(before, now, upTo - 1, u);
      assert now[..upTo] == now[..upTo - 1] + [now[upTo - 1]];
    }
  }

  lemma {:induction false} ItemLossMembers(before: seq<Unit>, now: seq<Unit>, upTo: nat, u: Unit)
    requires upTo <= |now|
    ensures u in ItemLosses(before, now, upTo) <==> u in now[..upTo] && IsItemLoss(before, now, u)
  {
    if upTo > 0 {
      ItemLossMembers(before, now, upTo - 1, u);
      assert now[..upTo] == now[..upTo - 1] + [now[upTo - 1]];
    }
  }

  lemma {:induction false} MetricOfUnits(baseline: seq<Unit>, current: seq<Unit>, spec: Spec, u: Unit)
    ensures u in OfMetric(baseline, current, spec) <==> ReportedOfMetric(baseline, current, spec, u)
  {
    var before, now := Of(baseline, spec.metric), Of(current, spec.metric);
    forall x ensures x in before <==> x in baseline && x.id.metric == spec.metric {
      OfMember(baseline, spec.metric, x);
    }
    forall x ensures x in now <==> x in current && x.id.metric == spec.metric {
      OfMember(current, spec.metric, x);
    }
    assert now[..|now|] == now;
    TripMembers(before, now, |now|, u);
    ItemLossMembers(before, now, |now|, u);
  }

  lemma {:induction false} FlatMembers(parts: seq<seq<Unit>>, u: Unit)
    ensures u in Flat(parts) <==> exists i :: 0 <= i < |parts| && u in parts[i]
  {
    if parts != [] {
      FlatMembers(parts[..|parts| - 1], u);
    }
  }

  /** Main result on the comparison item by item: what it reports. The last specification of a metric decides. */
  lemma {:induction false} ReportedItems(baseline: seq<Unit>, current: seq<Unit>, specs: seq<Spec>, u: Unit)
    ensures u in Differences(baseline, current, ByMetric(specs))
       <==> exists i :: 0 <= i < |specs| && Decides(specs, i) && ReportedOfMetric(baseline, current, specs[i], u)
  {
    var byMetric := ByMetric(specs);
    FlatMembers(PerMetric(baseline, current, byMetric), u);
    forall k | 0 <= k < |byMetric|
      ensures u in OfMetric(baseline, current, byMetric[k]) <==> ReportedOfMetric(baseline, current, byMetric[k], u)
    {
      MetricOfUnits(baseline, current, byMetric[k], u);
    }
    if i :| 0 <= i < |specs| && Decides(specs, i) && ReportedOfMetric(baseline, current, specs[i], u) {
      assert IsDeciding(specs, specs[i]);
      DecidingSpecs(specs, specs[i]);
    }
    if k :| 0 <= k < |byMetric| && ReportedOfMetric(baseline, current, byMetric[k], u) {
      DecidingSpecs(specs, byMetric[k]);
    }
  }

  /** No later specification is of the same metric. */
  predicate Decides(specs: seq<Spec>, i: nat)
    requires i < |specs|
  {
    forall j :: i < j < |specs| ==> specs[j].metric != specs[i].metric
  }

  predicate IsDeciding(specs: seq<Spec>, s: Spec) {
    exists i :: 0 <= i < |specs| && Decides(specs, i) && specs[i] == s
  }

  lemma {:induction false} DecidingSpecs(specs: seq<Spec>, s: Spec)
    ensures s in ByMetric(specs) <==> IsDeciding(specs, s)
    ensures UniqueMetrics(ByMetric(specs))
  {
    if specs != [] {
      var init, last := specs[..|specs| - 1], specs[|specs| - 1];
      DecidingSpecs(init, s);
      PutSpecUnique(ByMetric(init), last, s);
      DecidesLonger(init, last, specs, s);
    }
  }

  lemma {:induction false} DecidesLonger(init: seq<Spec>, last: Spec, specs: seq<Spec>, s: Spec)
    requires specs == init + [last]
    ensures IsDeciding(specs, s) <==> s == last || (s.metric != last.metric && IsDeciding(init, s))
  {
    var n := |init|;
    assert Decides(specs, n) && specs[n] == last;
    assert forall i :: 0 <= i < n ==> init[i] == specs[i];
    forall i | 0 <= i < n ensures Decides(specs, i) <==> Decides(init, i) && last.metric != specs[i].metric {
      if Decides(specs, i) {
        assert forall j :: i < j < n ==> specs[j] == init[j];
      }
    }
  }

  /** The place a specification takes: that of its metric, or the end. */
  lemma {:induction false} PutSpecPlace(dict: seq<Spec>, spec: Spec) returns (p: nat)
    ensures p <= |dict| && forall i :: 0 <= i < p ==> dict[i].metric != spec.metric
    ensures p < |dict| ==> dict[p].metric == spec.metric
    ensures PutSpec(dict, spec) == if p < |dict| then dict[p := spec] else dict + [spec]
  {
    if dict == [] || dict[0].metric == spec.metric {
      p := 0;
    } else {
      var q := PutSpecPlace(dict[1..], spec);
      p := q + 1;
      assert forall i :: 1 <= i < |dict| ==> dict[i] == dict[1..][i - 1];
    }
  }

  lemma {:induction false} PutSpecUnique(dict: seq<Spec>, spec: Spec, s: Spec)
    requires UniqueMetrics(dict)
    ensures UniqueMetrics(PutSpec(dict, spec))
    ensures s in PutSpec(dict, spec) <==> s == spec || (s in dict && s.metric != spec.metric)
  {
    var p := PutSpecPlace(dict, spec);
    PutAtPlace(dict, spec, p, s);
  }

  lemma {:induction false} PutAtPlace(dict: seq<Spec>, spec: Spec, p: nat, s: Spec)
    requires UniqueMetrics(dict) && p <= |dict| && forall i :: 0 <= i < p ==> dict[i].metric != spec.metric
    requires p < |dict| ==> dict[p].metric == spec.metric
    ensures var put := if p < |dict| then dict[p := spec] else dict + [spec];
      UniqueMetrics(put) && (s in put <==> s == spec || (s in dict && s.metric != spec.metric))
  {
    var put := if p < |dict| then dict[p := spec] else dict + [spec];
    assert put[p] == spec && forall i :: 0 <= i < |dict| && i != p ==> put[i] == dict[i];
  }

  /** A comparison goes through exactly when each version the baseline names is the current one. */
  lemma {:induction false} VersionsAgree(baseline: Versions, current: Versions)
    ensures !Drifted(baseline, current)
       <==> baseline.golden in {None, current.golden} && baseline.scorer in {None, current.scorer}
  {
  }

  /** The metrics are compared in the order in which they are first specified. */
  function FirstMentions(specs: seq<Spec>): seq<Metric> {
    if specs == [] then []
    else
      var before, m := FirstMentions(specs[..|specs| - 1]), specs[|specs| - 1].metric;
      if m in before then before else before + [m]
  }

  lemma {:induction false} MetricsInOrder(specs: seq<Spec>)
    ensures |ByMetric(specs)| == |FirstMentions(specs)|
    ensures forall i :: 0 <= i < |ByMetric(specs)| ==> ByMetric(specs)[i].metric == FirstMentions(specs)[i]
  {
    if specs != [] {
      var init, last := specs[..|specs| - 1], specs[|specs| - 1];
      MetricsInOrder(init);
      var p := PutSpecPlace(ByMetric(init), last);
      assert p < |ByMetric(init)| ==> FirstMentions(init)[p] == last.metric;
    }
  }
}
