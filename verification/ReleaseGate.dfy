/** The held-out release verdict (evals/clause_frame_release.py, `release_specs` and `evaluate_release`;
    evals/unit_metrics.py, `evaluate_metric`; evals/clause_frame_scoring.py, `score_units`).

    Rates are exact reals; the intervals a row also carries do not enter the verdict. */
module ReleaseGate {
  import opened Basics
  import opened UnitRegression

  /** From worst to best; a metric without units is not measured. */
  datatype Status = Fail | NotMeasured | Underpowered | PassPoint

  function Rank(s: Status): nat {
    match s case Fail => 0 case NotMeasured => 1 case Underpowered => 2 case PassPoint => 3
  }

  datatype Profile = ConstructionWork | Employment | Lease | Nda | Sales | SupplyService

  const PROFILES: seq<Profile> := [ConstructionWork, Employment, Lease, Nda, Sales, SupplyService]

  datatype Scope = Overall | Within(profile: Profile) | OfDossier(dossier: nat)

  datatype Row = Row(metric: Metric, scope: Scope, passed: nat, total: nat, status: Status)

  // ---------------------------------------------------------------- one metric

  function Passed(units: seq<Unit>): (n: nat)
    ensures n <= |units|
  {
    if units == [] then 0 else Passed(units[..|units| - 1]) + if units[|units| - 1].passed then 1 else 0
  }

  function StatusOf(passed: nat, total: nat, spec: Spec): Status
    requires passed <= total
  {
    if total == 0 then NotMeasured
    else if spec.maxFailures.Some? && total - passed > spec.maxFailures.value then Fail
    else if total < spec.unitFloor then Underpowered
    else if passed as real / total as real >= spec.threshold then PassPoint
    else Fail
  }

  function EvaluateMetric(units: seq<Unit>, spec: Spec, scope: Scope): Row {
    var selected := Of(units, spec.metric);
    Row(spec.metric, scope, Passed(selected), |selected|, StatusOf(Passed(selected), |selected|, spec))
  }

  lemma HigherRate(p: nat, q: nat, n: nat)
    requires p <= q && n > 0
    ensures p as real / n as real <= q as real / n as real
  {
  }

  lemma {:induction false} MorePassesHigherStatus(p: nat, q: nat, n: nat, spec: Spec)
    requires p <= q <= n
    ensures Rank(StatusOf(p, n, spec)) <= Rank(StatusOf(q, n, spec))
  {
    if n > 0 {
      HigherRate(p, q, n);
    }
  }

  // ---------------------------------------------------------------- turning failures into passes

  /** The same units in the same order, some failing ones turned into passing ones. */
  ghost predicate Improves(a: seq<Unit>, b: seq<Unit>) {
    && |a| == |b|
    && forall i :: 0 <= i < |a| ==> b[i] == a[i].(passed := b[i].passed) && (a[i].passed ==> b[i].passed)
  }

  lemma {:induction false} ImprovedPasses(a: seq<Unit>, b: seq<Unit>)
    requires Improves(a, b)
    ensures Passed(a) <= Passed(b)
  {
    if a != [] {
      ImprovedPasses(a[..|a| - 1], b[..|b| - 1]);
    }
  }

  lemma {:induction false} ImprovedMetric(a: seq<Unit>, b: seq<Unit>, m: Metric)
    requires Improves(a, b)
    ensures Improves(Of(a, m), Of(b, m))
  {
    if a != [] {
      ImprovedMetric(a[..|a| - 1], b[..|b| - 1], m);
    }
  }

  predicate InScope(u: Unit, scope: Scope, profiles: map<nat, Profile>)
    requires u.cluster in profiles
  {
    match scope
    case Overall => true
    case Within(profile) => profiles[u.cluster] == profile
    case OfDossier(dossier) => u.cluster == dossier
  }

  predicate Profiled(units: seq<Unit>, profiles: map<nat, Profile>) {
    forall i :: 0 <= i < |units| ==> units[i].cluster in profiles
  }

  function Selected(units: seq<Unit>, scope: Scope, profiles: map<nat, Profile>): seq<Unit>
    requires Profiled(units, profiles)
  {
    if units == [] then []
    else
      var before, last := Selected(units[..|units| - 1], scope, profiles), units[|units| - 1];
      if InScope(last, scope, profiles) then before + [last] else before
  }

  lemma {:induction false} ImprovedSelection(a: seq<Unit>, b: seq<Unit>, scope: Scope, profiles: map<nat, Profile>)
    requires Improves(a, b) && Profiled(a, profiles)
    ensures Profiled(b, profiles) && Improves(Selected(a, scope, profiles), Selected(b, scope, profiles))
  {
    if a != [] {
      ImprovedSelection(a[..|a| - 1], b[..|b| - 1], scope, profiles);
    }
  }

  lemma {:induction false} AllSelected(units: seq<Unit>, profiles: map<nat, Profile>)
    requires Profiled(units, profiles)
    ensures Selected(units, Overall, profiles) == units
  {
    if units != [] {
      AllSelected(units[..|units| - 1], profiles);
      assert units == units[..|units| - 1] + [units[|units| - 1]];
    }
  }

  // ---------------------------------------------------------------- the rows of a report

  /** Dossiers in the order their rows are listed. */
  function Scopes(dossiers: seq<nat>): seq<Scope> {
    [Overall, Within(ConstructionWork), Within(Employment), Within(Lease), Within(Nda), Within(Sales),
      Within(SupplyService)]
    + DossierScopes(dossiers)
  }

  function DossierScopes(dossiers: seq<nat>): (r: seq<Scope>)
    ensures |r| == |dossiers| && forall i :: 0 <= i < |dossiers| ==> r[i] == OfDossier(dossiers[i])
  {
    if dossiers == [] then [] else DossierScopes(dossiers[..|dossiers| - 1]) + [OfDossier(dossiers[|dossiers| - 1])]
  }

  datatype Demand = Demand(spec: Spec, stratumFloor: nat)

  /** Strata are held to their own floor. */
  function SpecFor(demand: Demand, scope: Scope): Spec {
    if scope.Overall? then demand.spec else demand.spec.(unitFloor := demand.stratumFloor)
  }

  function RowFor(units: seq<Unit>, demand: Demand, scope: Scope, profiles: map<nat, Profile>): Row
    requires Profiled(units, profiles)
  {
    EvaluateMetric(Selected(units, scope, profiles), SpecFor(demand, scope), scope)
  }

  function RowsFor(units: seq<Unit>, demand: Demand, scopes: seq<Scope>, profiles: map<nat, Profile>): (r: seq<Row>)
    requires Profiled(units, profiles)
    ensures |r| == |scopes|
    ensures forall i :: 0 <= i < |scopes| ==> r[i] == RowFor(units, demand, scopes[i], profiles)
  {
    if scopes == [] then []
    else
      RowsFor(units, demand, scopes[..|scopes| - 1], profiles)
      + [RowFor(units, demand, scopes[|scopes| - 1], profiles)]
  }

  function AllRows(
    units: seq<Unit>, demands: seq<Demand>, scopes: seq<Scope>, profiles: map<nat, Profile>): (r: seq<Row>)
    requires Profiled(units, profiles)
  {
    if demands == [] then []
    else
      AllRows(units, demands[..|demands| - 1], scopes, profiles)
        + RowsFor(units, demands[|demands| - 1], scopes, profiles)
  }

  /** The first of FAIL, NOT_MEASURED and UNDERPOWERED that occurs. */
  function Aggregate(rows: seq<Row>): Status {
    if exists i :: 0 <= i < |rows| && rows[i].status == Fail then Fail
    else if exists i :: 0 <= i < |rows| && rows[i].status == NotMeasured then NotMeasured
    else if exists i :: 0 <= i < |rows| && rows[i].status == Underpowered then Underpowered
    else PassPoint
  }

  lemma {:induction false} AggregateIsLowest(rows: seq<Row>)
    ensures forall i :: 0 <= i < |rows| ==> Rank(Aggregate(rows)) <= Rank(rows[i].status)
    ensures Aggregate(rows) == PassPoint || exists i :: 0 <= i < |rows| && rows[i].status == Aggregate(rows)
  {
  }

  lemma {:induction false} RowsAreMembers(
    units: seq<Unit>, demands: seq<Demand>, scopes: seq<Scope>, profiles: map<nat, Profile>, row: Row)
    requires Profiled(units, profiles)
    ensures row in AllRows(units, demands, scopes, profiles)
       <==> exists d, s :: d in demands && s in scopes && row == RowFor(units, d, s, profiles)
  {
    if demands != [] {
      var init, last := demands[..|demands| - 1], demands[|demands| - 1];
      RowsAreMembers(units, init, scopes, profiles, row);
      assert demands == init + [last];
      assert row in RowsFor(units, last, scopes, profiles)
        <==> exists s :: s in scopes && row == RowFor(units, last, s, profiles);
    }
  }

  lemma {:induction false} ImprovedRow(
    a: seq<Unit>, b: seq<Unit>, demand: Demand, scope: Scope, profiles: map<nat, Profile>)
    requires Improves(a, b) && Profiled(a, profiles)
    ensures Profiled(b, profiles)
    ensures Rank(RowFor(a, demand, scope, profiles).status) <= Rank(RowFor(b, demand, scope, profiles).status)
  {
    ImprovedSelection(a, b, scope, profiles);
    var spec := SpecFor(demand, scope);
    var x, y := Of(Selected(a, scope, profiles), spec.metric), Of(Selected(b, scope, profiles), spec.metric);
    ImprovedMetric(Selected(a, scope, profiles), Selected(b, scope, profiles), spec.metric);
    ImprovedPasses(x, y);
    MorePassesHigherStatus(Passed(x), Passed(y), |x|, spec);
  }

  lemma {:induction false} ImprovedFrom(
    a: seq<Unit>, b: seq<Unit>, demands: seq<Demand>, scopes: seq<Scope>, profiles: map<nat, Profile>, row: Row)
    returns (was: Row)
    requires Improves(a, b) && Profiled(a, profiles) && Profiled(b, profiles)
    requires row in AllRows(b, demands, scopes, profiles)
    ensures was in AllRows(a, demands, scopes, profiles) && Rank(was.status) <= Rank(row.status)
  {
    RowsAreMembers(b, demands, scopes, profiles, row);
    var d, s :| d in demands && s in scopes && row == RowFor(b, d, s, profiles);
    ImprovedRow(a, b, d, s, profiles);
    was := RowFor(a, d, s, profiles);
    RowsAreMembers(a, demands, scopes, profiles, was);
  }

  /** Every row of y is matched by one of x that is no better. */
  ghost predicate NoBetter(x: seq<Row>, y: seq<Row>) {
    forall row :: row in y ==> exists was :: was in x && Rank(was.status) <= Rank(row.status)
  }

  lemma {:induction false} LowerAggregate(x: seq<Row>, y: seq<Row>)
    requires NoBetter(x, y)
    ensures Rank(Aggregate(x)) <= Rank(Aggregate(y))
  {
    AggregateIsLowest(x);
    AggregateIsLowest(y);
    if Aggregate(y) != PassPoint {
      var i :| 0 <= i < |y| && y[i].status == Aggregate(y);
      var was :| was in x && Rank(was.status) <= Rank(y[i].status);
    }
  }

  lemma {:induction false} ImprovedAggregate(
    a: seq<Unit>, b: seq<Unit>, demands: seq<Demand>, scopes: seq<Scope>, profiles: map<nat, Profile>)
    requires Improves(a, b) && Profiled(a, profiles) && Profiled(b, profiles)
    ensures Rank(Aggregate(AllRows(a, demands, scopes, profiles)))
         <= Rank(Aggregate(AllRows(b, demands, scopes, profiles)))
  {
    var x, y := AllRows(a, demands, scopes, profiles), AllRows(b, demands, scopes, profiles);
    forall row | row in y ensures exists was :: was in x && Rank(was.status) <= Rank(row.status) {
      var was := ImprovedFrom(a, b, demands, scopes, profiles, row);
    }
    LowerAggregate(x, y);
  }

  // ---------------------------------------------------------------- the verdict

  predicate HeldOut(units: seq<Unit>, demands: seq<Demand>, profiles: map<nat, Profile>) {
    forall i :: 0 <= i < |units| ==>
      units[i].heldout && units[i].cluster in profiles && Declared(demands, units[i].id.metric)
  }

  predicate Declared(demands: seq<Demand>, m: Metric) {
    exists k :: 0 <= k < |demands| && demands[k].spec.metric == m
  }

  function Specs(demands: seq<Demand>): (r: seq<Spec>)
    ensures |r| == |demands| && forall i :: 0 <= i < |demands| ==> r[i] == demands[i].spec
  {
    if demands == [] then [] else Specs(demands[..|demands| - 1]) + [demands[|demands| - 1].spec]
  }

  /** How many units of the baseline compare pairs. */
  function PairUnits(baseline: seq<Unit>): nat {
    if baseline == [] then 0
    else
      PairUnits(baseline[..|baseline| - 1])
      + if baseline[|baseline| - 1].id.metric == PairFalseDuplicate then 1 else 0
  }

  function Verdict(rows: seq<Row>, enoughPairs: bool, regressed: bool): Status {
    if regressed then Fail
    else if !enoughPairs && Aggregate(rows) == PassPoint then Underpowered
    else Aggregate(rows)
  }

  datatype Release = Release(quality: Status, regressions: nat, rows: seq<Row>)

  ghost predicate Scorable(baseline: seq<Unit>, current: seq<Unit>, demands: seq<Demand>, profiles: map<nat, Profile>) {
    && HeldOut(baseline, demands, profiles) && HeldOut(current, demands, profiles)
    && UniqueIds(baseline) && UniqueIds(current)
  }

  function Released(
    baseline: seq<Unit>, current: seq<Unit>, demands: seq<Demand>, dossiers: seq<nat>,
    profiles: map<nat, Profile>): Release
    requires Profiled(current, profiles)
  {
    var rows := AllRows(current, demands, Scopes(dossiers), profiles);
    var regressions := Compared(baseline, current, Specs(demands));
    Release(Verdict(rows, PairUnits(baseline) >= 120, regressions != []), |regressions|, rows)
  }

  method CountPairs(baseline: seq<Unit>) returns (n: nat)
    ensures n == PairUnits(baseline)
  {
    n := 0;
    for i := 0 to |baseline|
      invariant n == PairUnits(baseline[..i])
    {
      assert baseline[..i + 1][..i] == baseline[..i];
      if baseline[i].id.metric == PairFalseDuplicate {
        n := n + 1;
      }
    }
    assert baseline[..|baseline|] == baseline;
  }

  /** The rows of one metric: overall, by profile and by dossier. */
  method MetricRows(
    current: seq<Unit>, demand: Demand, dossiers: seq<nat>, profiles: map<nat, Profile>) returns (rows: seq<Row>)
    requires Profiled(current, profiles)
    ensures rows == RowsFor(current, demand, Scopes(dossiers), profiles)
  {
    AllSelected(current, profiles);
    rows := [EvaluateMetric(current, demand.spec, Overall)];
    var stratumSpec := demand.spec.(unitFloor := demand.stratumFloor);
    for i := 0 to |PROFILES|
      invariant |rows| == i + 1
      invariant forall k :: 0 <= k <= i ==> rows[k] == RowFor(current, demand, Scopes(dossiers)[k], profiles)
    {
      var selected := Selected(current, Within(PROFILES[i]), profiles);
      rows := rows + [EvaluateMetric(selected, stratumSpec, Within(PROFILES[i]))];
    }
    for i := 0 to |dossiers|
      invariant |rows| == i + 7
      invariant forall k :: 0 <= k < i + 7 ==> rows[k] == RowFor(current, demand, Scopes(dossiers)[k], profiles)
    {
      var selected := Selected(current, OfDossier(dossiers[i]), profiles);
      rows := rows + [EvaluateMetric(selected, stratumSpec, OfDossier(dossiers[i]))];
    }
  }

  method ReleaseRows(current: seq<Unit>, demands: seq<Demand>, dossiers: seq<nat>, profiles: map<nat, Profile>)
    returns (rows: seq<Row>)
    requires Profiled(current, profiles)
    ensures rows == AllRows(current, demands, Scopes(dossiers), profiles)
  {
    rows := [];
    for i := 0 to |demands|
      invariant rows == AllRows(current, demands[..i], Scopes(dossiers), profiles)
    {
      var more := MetricRows(current, demands[i], dossiers, profiles);
      assert demands[..i + 1][..i] == demands[..i];
      rows := rows + more;
    }
    assert demands[..|demands|] == demands;
  }

  /** `dossiers` lists the keys of `profiles` in order. */
  method EvaluateRelease(
    baseline: seq<Unit>, current: seq<Unit>, demands: seq<Demand>, dossiers: seq<nat>, profiles: map<nat, Profile>)
    returns (r: Outcome<Release>)
    ensures r.Returns? <==> Scorable(baseline, current, demands, profiles)
    ensures r.Returns? ==> r.value == Released(baseline, current, demands, dossiers, profiles)
  {
    if !HeldOut(baseline, demands, profiles) || !HeldOut(current, demands, profiles) {
      return Raises;
    }
    var regression := CompareUnits(baseline, current, Specs(demands));
    if regression.Raises? {
      return Raises;
    }
    var rows := ReleaseRows(current, demands, dossiers, profiles);
    var pairs := CountPairs(baseline);
    var quality := Aggregate(rows);
    if pairs < 120 && quality == PassPoint {
      quality := Underpowered;
    }
    if regression.value != [] {
      quality := Fail;
    }
    return Returns(Release(quality, |regression.value|, rows));
  }

  // ---------------------------------------------------------------- what the verdict means

  lemma {:induction false} ImprovedScorable(
    baseline: seq<Unit>, a: seq<Unit>, b: seq<Unit>, demands: seq<Demand>, profiles: map<nat, Profile>)
    requires Improves(a, b) && Scorable(baseline, a, demands, profiles)
    ensures Scorable(baseline, b, demands, profiles)
  {
    assert forall i :: 0 <= i < |a| ==> b[i].id == a[i].id;
  }

  lemma {:induction false} ImprovedRegressions(baseline: seq<Unit>, a: seq<Unit>, b: seq<Unit>, specs: seq<Spec>)
    requires Improves(a, b) && UniqueIds(baseline) && UniqueIds(a) && UniqueIds(b)
    requires Compared(baseline, a, specs) == []
    ensures Compared(baseline, b, specs) == []
  {
    UnitGate(baseline, a, specs);
    UnitGate(baseline, b, specs);
    forall prior | prior in baseline && prior.passed ensures exists u :: u in b && u.id == prior.id && u.passed {
      var u :| u in a && u.id == prior.id && u.passed;
      var i :| 0 <= i < |a| && a[i] == u;
      assert b[i] in b;
    }
    forall u | u in b && !u.passed && Tripped(specs, u.id.metric)
      ensures exists prior :: prior in baseline && prior.id == u.id && !prior.passed
    {
      var i :| 0 <= i < |b| && b[i] == u;
      assert a[i] in a && !a[i].passed;
    }
  }

  /** Turning failing units into passing ones never lowers the verdict, and never makes the evaluation refuse. */
  lemma {:induction false} VerdictIsMonotone(
    baseline: seq<Unit>, a: seq<Unit>, b: seq<Unit>, demands: seq<Demand>, dossiers: seq<nat>,
    profiles: map<nat, Profile>)
    requires Improves(a, b) && Scorable(baseline, a, demands, profiles)
    ensures Scorable(baseline, b, demands, profiles)
    ensures Rank(Released(baseline, a, demands, dossiers, profiles).quality)
         <= Rank(Released(baseline, b, demands, dossiers, profiles).quality)
  {
    ImprovedScorable(baseline, a, b, demands, profiles);
    ImprovedAggregate(a, b, demands, Scopes(dossiers), profiles);
    if Compared(baseline, a, Specs(demands)) == [] {
      ImprovedRegressions(baseline, a, b, Specs(demands));
    }
    VerdictOrder(
      AllRows(a, demands, Scopes(dossiers), profiles), AllRows(b, demands, Scopes(dossiers), profiles),
      PairUnits(baseline) >= 120, Compared(baseline, a, Specs(demands)) != [],
      Compared(baseline, b, Specs(demands)) != []);
  }

  lemma VerdictOrder(x: seq<Row>, y: seq<Row>, enoughPairs: bool, regressed: bool, stillRegressed: bool)
    requires Rank(Aggregate(x)) <= Rank(Aggregate(y)) && (stillRegressed ==> regressed)
    ensures Rank(Verdict(x, enoughPairs, regressed)) <= Rank(Verdict(y, enoughPairs, stillRegressed))
  {
  }

  lemma {:induction false} AllRowsPass(rows: seq<Row>)
    ensures Aggregate(rows) == PassPoint <==> forall row :: row in rows ==> row.status == PassPoint
  {
    AggregateIsLowest(rows);
    forall i | 0 <= i < |rows| ensures rows[i] in rows {
    }
  }

  /** The verdict passes exactly when every row passes, the baseline compares enough pairs, no unit that
      passed is failing or gone, and no tripwire failure is new. */
  lemma {:induction false} PassingVerdict(
    baseline: seq<Unit>, current: seq<Unit>, demands: seq<Demand>, dossiers: seq<nat>, profiles: map<nat, Profile>)
    requires Scorable(baseline, current, demands, profiles)
    ensures Released(baseline, current, demands, dossiers, profiles).quality == PassPoint
       <==> && (forall row :: row in AllRows(current, demands, Scopes(dossiers), profiles) ==> row.status == PassPoint)
            && PairUnits(baseline) >= 120
            && PassesAreKept(baseline, current)
            && TripwiresHold(baseline, current, Specs(demands))
  {
    UnitGate(baseline, current, Specs(demands));
    AllRowsPass(AllRows(current, demands, Scopes(dossiers), profiles));
  }

  /** A passing release also passes the comparison item by item. */
  lemma {:induction false} PassingReleaseHasNoItemRegression(
    baseline: seq<Unit>, current: seq<Unit>, demands: seq<Demand>, dossiers: seq<nat>, profiles: map<nat, Profile>)
    requires Scorable(baseline, current, demands, profiles)
    requires Released(baseline, current, demands, dossiers, profiles).quality != Fail
    ensures Differences(baseline, current, ByMetric(Specs(demands))) == []
  {
    UnitGateImpliesItemGate(baseline, current, Specs(demands));
  }

  // ---------------------------------------------------------------- the plain score

  function Scores(units: seq<Unit>, specs: seq<Spec>): (rows: seq<Row>)
    ensures |rows| == |specs| && forall i :: 0 <= i < |specs| ==> rows[i] == EvaluateMetric(units, specs[i], Overall)
  {
    if specs == [] then []
    else Scores(units, specs[..|specs| - 1]) + [EvaluateMetric(units, specs[|specs| - 1], Overall)]
  }

  ghost predicate AllDeclared(units: seq<Unit>, specs: seq<Spec>) {
    forall i :: 0 <= i < |units| ==> DeclaredIn(specs, units[i].id.metric)
  }

  ghost predicate DeclaredIn(specs: seq<Spec>, m: Metric) {
    exists k :: 0 <= k < |specs| && specs[k].metric == m
  }

  function MetricsOf(specs: seq<Spec>): (r: seq<Metric>)
    ensures |r| == |specs| && forall i :: 0 <= i < |specs| ==> r[i] == specs[i].metric
  {
    if specs == [] then [] else MetricsOf(specs[..|specs| - 1]) + [specs[|specs| - 1].metric]
  }

  lemma {:induction false} DeclaredMetric(specs: seq<Spec>, m: Metric)
    ensures m in Elements(MetricsOf(specs)) <==> DeclaredIn(specs, m)
  {
    if k :| 0 <= k < |specs| && specs[k].metric == m {
      assert MetricsOf(specs)[k] == m;
    }
  }

  lemma {:induction false} UndeclaredUnits(records: seq<Unit>, specs: seq<Spec>)
    ensures AllDeclared(records, specs)
       <==> forall i :: 0 <= i < |records| ==> records[i].id.metric in Elements(MetricsOf(specs))
  {
    forall i | 0 <= i < |records|
      ensures records[i].id.metric in Elements(MetricsOf(specs))
         <==> DeclaredIn(specs, records[i].id.metric)
    {
      DeclaredMetric(specs, records[i].id.metric);
    }
  }

  method ScoreUnits(records: seq<Unit>, specs: seq<Spec>) returns (r: Outcome<(Status, seq<Row>)>)
    ensures r.Returns? <==> UniqueIds(records) && specs != [] && UniqueMetrics(specs) && AllDeclared(records, specs)
    ensures r.Returns? ==> r.value == (Aggregate(Scores(records, specs)), Scores(records, specs))
  {
    var indexed := Index(records);
    if indexed.Raises? {
      return Raises;
    }
    DistinctBySize(MetricsOf(specs));
    var declared := Elements(MetricsOf(specs));
    if specs == [] || |declared| != |specs| {
      return Raises;
    }
    UndeclaredUnits(records, specs);
    if exists i :: 0 <= i < |records| && records[i].id.metric !in declared {
      return Raises;
    }
    var metrics: seq<Row> := [];
    for i := 0 to |specs|
      invariant metrics == Scores(records, specs[..i])
    {
      assert specs[..i + 1][..i] == specs[..i];
      metrics := metrics + [EvaluateMetric(records, specs[i], Overall)];
    }
    assert specs[..|specs|] == specs;
    return Returns((Aggregate(metrics), metrics));
  }

  lemma {:induction false} ScoreIsARow(
    current: seq<Unit>, demands: seq<Demand>, dossiers: seq<nat>, profiles: map<nat, Profile>, i: nat)
    requires Profiled(current, profiles) && i < |demands|
    ensures EvaluateMetric(current, demands[i].spec, Overall) in AllRows(current, demands, Scopes(dossiers), profiles)
  {
    AllSelected(current, profiles);
    assert Scopes(dossiers)[0] == Overall;
    RowsAreMembers(current, demands, Scopes(dossiers), profiles, RowFor(current, demands[i], Overall, profiles));
  }

  lemma {:induction false} ScoresAreRows(
    current: seq<Unit>, demands: seq<Demand>, dossiers: seq<nat>, profiles: map<nat, Profile>)
    requires Profiled(current, profiles)
    ensures NoBetter(AllRows(current, demands, Scopes(dossiers), profiles), Scores(current, Specs(demands)))
  {
    var scores := Scores(current, Specs(demands));
    forall i | 0 <= i < |scores| ensures scores[i] in AllRows(current, demands, Scopes(dossiers), profiles) {
      ScoreIsARow(current, demands, dossiers, profiles, i);
    }
  }

  lemma VerdictIsNoBetter(rows: seq<Row>, enoughPairs: bool, regressed: bool)
    ensures Rank(Verdict(rows, enoughPairs, regressed)) <= Rank(Aggregate(rows))
  {
  }

  /** A release verdict is never better than the plain score of the same units. */
  lemma {:induction false} ReleaseIsStricter(
    baseline: seq<Unit>, current: seq<Unit>, demands: seq<Demand>, dossiers: seq<nat>, profiles: map<nat, Profile>)
    requires Profiled(current, profiles)
    ensures Rank(Released(baseline, current, demands, dossiers, profiles).quality)
         <= Rank(Aggregate(Scores(current, Specs(demands))))
  {
    var rows := AllRows(current, demands, Scopes(dossiers), profiles);
    ScoresAreRows(current, demands, dossiers, profiles);
    LowerAggregate(rows, Scores(current, Specs(demands)));
    VerdictIsNoBetter(rows, PairUnits(baseline) >= 120, Compared(baseline, current, Specs(demands)) != []);
  }

  // ---------------------------------------------------------------- the frozen policy

  datatype PolicyRow = PolicyRow(
    metric: Metric, threshold: real, smallerIsBetter: bool, exact: bool, allStrata: bool, minimumUnits: int,
    stratumMinimum: int)

  predicate Badness(m: Metric) {
    m == KeyWrongDefinite || ZeroErrors(m)
  }

  predicate ZeroErrors(m: Metric) {
    m == PairFalseDuplicate || m == CitationExtra || m == ValueFabricated
  }

  predicate HardInvariant(m: Metric) {
    m == CitationValid || m == CertaintySafety
  }

  /** The row passes the policy check and the stricter demands of a release. */
  predicate RowAccepted(row: PolicyRow) {
    && 0.0 <= row.threshold <= 1.0
    && row.smallerIsBetter == Badness(row.metric)
    && row.exact && row.allStrata
    && row.minimumUnits >= 60
    && row.stratumMinimum > 0
    && (ZeroErrors(row.metric) ==> row.threshold == 0.0)
    && (HardInvariant(row.metric) ==> row.threshold == 1.0)
  }

  function DemandOf(row: PolicyRow): Demand
    requires RowAccepted(row)
  {
    Demand(
      Spec(row.metric, if Badness(row.metric) then 1.0 - row.threshold else row.threshold, row.minimumUnits,
           if ZeroErrors(row.metric) then Some(0) else None),
      row.stratumMinimum)
  }

  /** `frozen` says that the rest of the policy check passed: approval, pins, time stamps, required names, unique
      names. */
  method ReleaseSpecs(frozen: bool, rows: seq<PolicyRow>, dispositions: set<nat>) returns (r: Outcome<seq<Demand>>)
    ensures r.Returns? <==>
      && frozen
      && (forall d :: d in dispositions ==> exists i :: 0 <= i < |rows| && rows[i].metric == PairPrecision(d))
      && (forall i :: 0 <= i < |rows| ==> RowAccepted(rows[i]))
    ensures r.Returns? ==> |r.value| == |rows| && forall i :: 0 <= i < |rows| ==> r.value[i] == DemandOf(rows[i])
  {
    if !frozen {
      return Raises;
    }
    var names := set i | 0 <= i < |rows| :: rows[i].metric;
    if exists d :: d in dispositions && PairPrecision(d) !in names {
      return Raises;
    }
    var specs: seq<Demand> := [];
    for i := 0 to |rows|
      invariant |specs| == i
      invariant forall k :: 0 <= k < i ==> RowAccepted(rows[k]) && specs[k] == DemandOf(rows[k])
    {
      if !RowAccepted(rows[i]) {
        return Raises;
      }
      specs := specs + [DemandOf(rows[i])];
    }
    return Returns(specs);
  }

  lemma ScaledBy(q: real, c: real, n: real)
    requires n > 0.0
    ensures q >= c <==> q * n >= c * n
  {
    if q >= c {
      assert (q - c) * n >= 0.0;
    } else {
      assert (c - q) * n > 0.0;
    }
  }

  lemma {:induction false} ShareOf(failed: real, n: real, t: real)
    requires n > 0.0
    ensures (n - failed) / n >= 1.0 - t <==> failed <= t * n
  {
    var rate, budget := (n - failed) / n, t * n;
    assert rate * n == n - failed;
    assert (1.0 - t) * n == n - budget;
    ScaledBy(rate, 1.0 - t, n);
  }

  lemma {:induction false} Share(failed: nat, total: nat, threshold: real)
    requires failed <= total && total > 0
    ensures (total - failed) as real / total as real >= 1.0 - threshold <==> failed as real <= threshold * total as real
    ensures (total - failed) as real / total as real >= 1.0 <==> failed == 0
  {
    assert (total - failed) as real == total as real - failed as real;
    ShareOf(failed as real, total as real, threshold);
    ShareOf(failed as real, total as real, 0.0);
  }

  /** Metrics that allow no error pass exactly when there are units enough and none fails;
      the other error rates pass exactly when the failing units stay within the frozen share. */
  lemma {:induction false} ErrorBudget(row: PolicyRow, passed: nat, total: nat)
    requires RowAccepted(row) && passed <= total
    ensures var spec, failed := DemandOf(row).spec, total - passed;
      && (ZeroErrors(row.metric) || HardInvariant(row.metric) ==>
            && Tripwire(spec)
            && (StatusOf(passed, total, spec) == PassPoint <==> total >= row.minimumUnits && failed == 0))
      && (Badness(row.metric) ==>
            (StatusOf(passed, total, spec) == PassPoint <==>
              total >= row.minimumUnits && failed as real <= row.threshold * total as real))
  {
    if total > 0 {
      Share(total - passed, total, row.threshold);
    }
  }

  // ---------------------------------------------------------------- rows in terms of the units alone

  /** A row of the metric and scope judges the unit. */
  ghost predicate Judged(u: Unit, m: Metric, scope: Scope, profiles: map<nat, Profile>) {
    && u.id.metric == m
    && (scope.Within? ==> u.cluster in profiles && profiles[u.cluster] == scope.profile)
    && (scope.OfDossier? ==> u.cluster == scope.dossier)
  }

  ghost function JudgedUnits(
    units: seq<Unit>, m: Metric, scope: Scope, profiles: map<nat, Profile>, upTo: nat): set<nat>
    requires upTo <= |units|
  {
    set i: nat | i < upTo && Judged(units[i], m, scope, profiles)
  }

  ghost function PassingUnits(
    units: seq<Unit>, m: Metric, scope: Scope, profiles: map<nat, Profile>, upTo: nat): set<nat>
    requires upTo <= |units|
  {
    set i: nat | i < upTo && Judged(units[i], m, scope, profiles) && units[i].passed
  }

  lemma {:induction false} OfAppend(units: seq<Unit>, u: Unit, m: Metric)
    ensures Of(units + [u], m) == Of(units, m) + if u.id.metric == m then [u] else []
  {
    assert (units + [u])[..|units|] == units;
  }

  lemma {:induction false} PassedAppend(units: seq<Unit>, u: Unit, added: bool)
    ensures Passed(units + if added then [u] else []) == Passed(units) + if added && u.passed then 1 else 0
  {
    if added {
      assert (units + [u])[..|units|] == units;
    } else {
      ConcatEmpty(units);
    }
  }

  lemma {:induction false} SelectedNext(
    units: seq<Unit>, init: seq<Unit>, u: Unit, m: Metric, scope: Scope, profiles: map<nat, Profile>)
    requires units != [] && init == units[..|units| - 1] && u == units[|units| - 1]
    requires Profiled(units, profiles) && Profiled(init, profiles)
    ensures Of(Selected(units, scope, profiles), m)
         == Of(Selected(init, scope, profiles), m) + if Judged(u, m, scope, profiles) then [u] else []
  {
    OfAppend(Selected(init, scope, profiles), u, m);
  }

  lemma {:induction false} JudgedNext(units: seq<Unit>, m: Metric, scope: Scope, profiles: map<nat, Profile>, i: nat)
    requires i < |units|
    ensures |JudgedUnits(units, m, scope, profiles, i + 1)|
         == |JudgedUnits(units, m, scope, profiles, i)| + if Judged(units[i], m, scope, profiles) then 1 else 0
    ensures |PassingUnits(units, m, scope, profiles, i + 1)|
         == |PassingUnits(units, m, scope, profiles, i)|
            + if Judged(units[i], m, scope, profiles) && units[i].passed then 1 else 0
  {
    OneMore(JudgedUnits(units, m, scope, profiles, i), JudgedUnits(units, m, scope, profiles, i + 1), i,
      Judged(units[i], m, scope, profiles));
    OneMore(PassingUnits(units, m, scope, profiles, i), PassingUnits(units, m, scope, profiles, i + 1), i,
      Judged(units[i], m, scope, profiles) && units[i].passed);
  }

  lemma {:induction false} SameJudged(
    units: seq<Unit>, init: seq<Unit>, m: Metric, scope: Scope, profiles: map<nat, Profile>)
    requires |init| <= |units| && forall i :: 0 <= i < |init| ==> init[i] == units[i]
    ensures JudgedUnits(init, m, scope, profiles, |init|) == JudgedUnits(units, m, scope, profiles, |init|)
    ensures PassingUnits(init, m, scope, profiles, |init|) == PassingUnits(units, m, scope, profiles, |init|)
  {
  }

  lemma {:induction false} SelectedCounts(units: seq<Unit>, m: Metric, scope: Scope, profiles: map<nat, Profile>)
    requires Profiled(units, profiles)
    ensures var selected := Of(Selected(units, scope, profiles), m);
      && |selected| == |JudgedUnits(units, m, scope, profiles, |units|)|
      && Passed(selected) == |PassingUnits(units, m, scope, profiles, |units|)|
  {
    if units == [] {
      assert JudgedUnits(units, m, scope, profiles, 0) == {} && PassingUnits(units, m, scope, profiles, 0) == {};
    } else {
      var init, u := units[..|units| - 1], units[|units| - 1];
      SelectedCounts(init, m, scope, profiles);
      SameJudged(units, init, m, scope, profiles);
      SelectedNext(units, init, u, m, scope, profiles);
      PassedAppend(Of(Selected(init, scope, profiles), m), u, Judged(u, m, scope, profiles));
      JudgedNext(units, m, scope, profiles, |init|);
    }
  }

  /** What a row counts: the units of its metric and scope, and the passing ones among them, against the floor of
      the specification for the overall row and against the stratum's floor for the others. */
  lemma {:induction false} RowOfUnits(units: seq<Unit>, demand: Demand, scope: Scope, profiles: map<nat, Profile>)
    requires Profiled(units, profiles)
    ensures
      var row, m := RowFor(units, demand, scope, profiles), demand.spec.metric;
      var floor := match scope case Overall => demand.spec.unitFloor case _ => demand.stratumFloor;
      && row.metric == m && row.scope == scope
      && row.total == |JudgedUnits(units, m, scope, profiles, |units|)|
      && row.passed == |PassingUnits(units, m, scope, profiles, |units|)|
      && row.passed <= row.total
      && row.status == StatusOf(row.passed, row.total, demand.spec.(unitFloor := floor))
  {
    SelectedCounts(units, demand.spec.metric, scope, profiles);
  }

  /** When a metric passes, fails, has too few units or none, in terms of its counts. */
  lemma {:induction false} StatusOfCounts(passed: nat, total: nat, spec: Spec)
    requires passed <= total
    ensures var status, tooMany := StatusOf(passed, total, spec),
                                   spec.maxFailures.Some? && passed + spec.maxFailures.value < total;
      && (status == NotMeasured <==> total == 0)
      && (status == Underpowered <==> 0 < total < spec.unitFloor && !tooMany)
      && (status == PassPoint <==>
            total > 0 && total >= spec.unitFloor && !tooMany && passed as real >= spec.threshold * total as real)
  {
    if total > 0 {
      ScaledBy(passed as real / total as real, spec.threshold, total as real);
    }
  }

  /** The scopes of a report: overall, each of the six profiles, and each listed dossier. */
  lemma {:induction false} ScopesOfReport(dossiers: seq<nat>, scope: Scope)
    ensures scope in Scopes(dossiers) <==> (scope.OfDossier? ==> scope.dossier in dossiers)
    ensures |Scopes(dossiers)| == 7 + |dossiers|
  {
    if scope.OfDossier? && scope.dossier in dossiers {
      var i :| 0 <= i < |dossiers| && dossiers[i] == scope.dossier;
      assert DossierScopes(dossiers)[i] == scope;
    }
    if scope.Within? {
      match scope.profile
      case ConstructionWork => assert Scopes(dossiers)[1] == scope;
      case Employment => assert Scopes(dossiers)[2] == scope;
      case Lease => assert Scopes(dossiers)[3] == scope;
      case Nda => assert Scopes(dossiers)[4] == scope;
      case Sales => assert Scopes(dossiers)[5] == scope;
      case SupplyService => assert Scopes(dossiers)[6] == scope;
    }
    assert Scopes(dossiers)[0] == Overall;
  }

  /** The rows together: any failing one fails them, then any unmeasured one, then any underpowered one. */
  lemma {:induction false} AggregateOfRows(rows: seq<Row>)
    ensures var status := Aggregate(rows);
      && (status == Fail <==> exists r :: r in rows && r.status == Fail)
      && (status == NotMeasured <==>
            (exists r :: r in rows && r.status == NotMeasured) && forall r :: r in rows ==> r.status != Fail)
      && (status == PassPoint <==> forall r :: r in rows ==> r.status == PassPoint)
  {
    assert forall i :: 0 <= i < |rows| ==> rows[i] in rows;
  }

  ghost function PairPlaces(baseline: seq<Unit>, upTo: nat): set<nat>
    requires upTo <= |baseline|
  {
    set i: nat | i < upTo && baseline[i].id.metric.PairFalseDuplicate?
  }

  lemma {:induction false} PairsOfUnits(baseline: seq<Unit>)
    ensures PairUnits(baseline) == |PairPlaces(baseline, |baseline|)|
  {
    if baseline == [] {
      assert PairPlaces(baseline, 0) == {};
    } else {
      var init, n := baseline[..|baseline| - 1], |baseline| - 1;
      PairsOfUnits(init);
      assert PairPlaces(init, n) == PairPlaces(baseline, n);
      OneMore(PairPlaces(baseline, n), PairPlaces(baseline, n + 1), n, baseline[n].id.metric == PairFalseDuplicate);
    }
  }

  /** The units an evaluation accepts: all held out, of a known dossier and of a specified metric. */
  lemma {:induction false} HeldOutOfUnits(units: seq<Unit>, demands: seq<Demand>, profiles: map<nat, Profile>)
    ensures HeldOut(units, demands, profiles)
       <==> forall u :: u in units ==>
              u.heldout && u.cluster in profiles && exists d :: d in demands && d.spec.metric == u.id.metric
  {
    assert forall i :: 0 <= i < |units| ==> units[i] in units;
    forall m ensures Declared(demands, m) <==> exists d :: d in demands && d.spec.metric == m {
      assert forall i :: 0 <= i < |demands| ==> demands[i] in demands;
    }
  }

  lemma {:induction false} RanksDiffer(a: Status, b: Status)
    ensures Rank(a) == Rank(b) <==> a == b
    ensures Rank(Fail) < Rank(NotMeasured) < Rank(Underpowered) < Rank(PassPoint)
  {
  }

  /** Which policy rows a release accepts, metric by metric, and the specification each becomes. */
  lemma {:induction false} PolicyOfMetric(row: PolicyRow)
    ensures RowAccepted(row) <==>
      && row.exact && row.allStrata && row.minimumUnits > 59 && row.stratumMinimum >= 1
      && 0.0 <= row.threshold && row.threshold <= 1.0
      && match row.metric
         case PairFalseDuplicate => row.smallerIsBetter && row.threshold == 0.0
         case CitationExtra => row.smallerIsBetter && row.threshold == 0.0
         case ValueFabricated => row.smallerIsBetter && row.threshold == 0.0
         case KeyWrongDefinite => row.smallerIsBetter
         case CitationValid => !row.smallerIsBetter && row.threshold == 1.0
         case CertaintySafety => !row.smallerIsBetter && row.threshold == 1.0
         case _ => !row.smallerIsBetter
    ensures RowAccepted(row) ==>
      var demand := DemandOf(row);
      && demand.stratumFloor == row.stratumMinimum && demand.spec.unitFloor == row.minimumUnits
      && demand.spec.metric == row.metric
      && demand.spec.threshold == (if row.smallerIsBetter then 1.0 - row.threshold else row.threshold)
      && (demand.spec.maxFailures == Some(0) <==> row.smallerIsBetter && row.metric != KeyWrongDefinite)
      && (demand.spec.maxFailures == None <==> !row.smallerIsBetter || row.metric == KeyWrongDefinite)
  {
  }
}
