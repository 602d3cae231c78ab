/** Consent rollout, rollback and user decisions over dossier metadata and an append-only audit log
    (backend/scripts/backfill_ai2_content_sharing_consent.py; user changes come from
    backend/src/contract_intelligence/contract/interfaces/api/routers/dossier_consent_router.py).

    Deletions and purges are those of DossierDeletionService
    (backend/src/contract_intelligence/contract/infrastructure/persistence/dossier_deletion_service.py).

    A dossier is named by its position in id order. Events are appended in time order, and the hash
    behind a derived event id is taken as injective. */
module ConsentRollout {
  import opened Basics

  /** The stored consent value. `Zero` is a number equal to 0, `Marker` the text "__absent__". */
  datatype Stored = Absent | Null | Bool(b: bool) | Zero | Marker | Malformed(text: string)

  datatype RolloutId = RolloutId(name: string)
  datatype EventId = Derived(rollout: RolloutId, dossier: nat, compensates: bool) | Fresh(serial: nat)

  /** The detail of a rollout event keeps the prior value. */
  datatype Action = Rollout(prior: Stored) | Rollback | UserChange(enabled: bool) | Unrelated
  datatype Event = Event(id: EventId, dossier: nat, action: Action)

  /** `excluded` covers the purge columns and the deletion ledger; `cleared` says that a purge removed
      the metadata and no consent was set since. */
  datatype Dossier = Dossier(consent: Stored, deleted: bool, excluded: bool, cleared: bool) {
    predicate Active() { !deleted && !excluded }

    predicate Proper() { cleared ==> excluded && consent.Absent? }
  }

  datatype State = State(rows: seq<Dossier>, log: seq<Event>)

  // ---------------------------------------------------------------- queries on the log

  function HasId(log: seq<Event>, id: EventId): bool {
    exists k :: 0 <= k < |log| && log[k].id == id
  }

  /** The consent events of one dossier, oldest first. */
  function Trail(log: seq<Event>, d: nat): seq<Event> {
    if log == [] then []
    else
      var before, last := Trail(log[..|log| - 1], d), log[|log| - 1];
      if last.dossier == d && !last.action.Unrelated? then before + [last] else before
  }

  function Latest(log: seq<Event>, d: nat): Option<Event> {
    var trail := Trail(log, d);
    if trail == [] then None else Some(trail[|trail| - 1])
  }

  // ---------------------------------------------------------------- one row

  /** What the rollout writes down as the prior value: the marker text reads as an absent key. */
  function Recorded(v: Stored): Stored {
    if v.Marker? then Absent else v
  }

  /** Legacy values a rollout may replace: false, null, absent, and whatever Python finds equal to them. */
  predicate Replaceable(v: Stored) {
    v == Bool(false) || v.Null? || v.Absent? || v.Zero? || v.Marker?
  }

  predicate UserDecided(log: seq<Event>, d: nat) {
    Latest(log, d).Some? && Latest(log, d).value.action.UserChange?
  }

  predicate Eligible(st: State, r: RolloutId, d: nat)
    requires d < |st.rows|
  {
    var row := st.rows[d];
    && row.Active()
    && Replaceable(row.consent)
    && !(row.consent == Bool(false) && UserDecided(st.log, d))
    && !HasId(st.log, Derived(r, d, false))
  }

  function ApplyRow(st: State, r: RolloutId, d: nat): State
    requires d < |st.rows|
  {
    if !Eligible(st, r, d) then st
    else
      State(st.rows[d := st.rows[d].(consent := Bool(true))],
            st.log + [Event(Derived(r, d, false), d, Rollout(Recorded(st.rows[d].consent)))])
  }

  predicate Restorable(st: State, r: RolloutId, d: nat)
    requires d < |st.rows|
  {
    var latest := Latest(st.log, d);
    && st.rows[d].Active()
    && HasId(st.log, Derived(r, d, false))
    && latest.Some? && latest.value.id == Derived(r, d, false)
    && st.rows[d].consent == Bool(true)
    && !HasId(st.log, Derived(r, d, true))
  }

  function PriorOf(e: Event): Stored {
    if e.action.Rollout? then e.action.prior else Absent
  }

  function RollbackRow(st: State, r: RolloutId, d: nat): State
    requires d < |st.rows|
  {
    if !Restorable(st, r, d) then st
    else
      State(st.rows[d := st.rows[d].(consent := PriorOf(Latest(st.log, d).value))],
            st.log + [Event(Derived(r, d, true), d, Rollback)])
  }

  // ---------------------------------------------------------------- whole operations

  function Apply(st: State, r: RolloutId, upTo: nat): (next: State)
    requires upTo <= |st.rows|
    ensures |next.rows| == |st.rows|
  {
    if upTo == 0 then st else ApplyRow(Apply(st, r, upTo - 1), r, upTo - 1)
  }

  function Undo(st: State, r: RolloutId, upTo: nat): (next: State)
    requires upTo <= |st.rows|
    ensures |next.rows| == |st.rows|
  {
    if upTo == 0 then st else RollbackRow(Undo(st, r, upTo - 1), r, upTo - 1)
  }

  /** A user sets the value; nothing is logged when it already is that value. */
  function UserSet(st: State, d: nat, enabled: bool, serial: nat): State {
    if d >= |st.rows| || st.rows[d].deleted || st.rows[d].consent == Bool(enabled) then st
    else State(st.rows[d := st.rows[d].(consent := Bool(enabled), cleared := false)],
               st.log + [Event(Fresh(serial), d, UserChange(enabled))])
  }

  /** A deletion request enters the ledger; a tombstone also hides the dossier from its users. */
  function Delete(st: State, d: nat, tombstone: bool): State {
    if d >= |st.rows| then st
    else st.(rows := st.rows[d := st.rows[d].(deleted := st.rows[d].deleted || tombstone, excluded := true)])
  }

  /** The purge of a dossier up for deletion clears its metadata and leaves the log alone. */
  function Purge(st: State, d: nat): State {
    if d >= |st.rows| || !(st.rows[d].deleted || st.rows[d].excluded) then st
    else st.(rows := st.rows[d := st.rows[d].(consent := Absent, excluded := true, cleared := true)])
  }

  datatype Step =
    | DoApply(r: RolloutId)
    | DoRollback(r: RolloutId)
    | DoUser(d: nat, enabled: bool, serial: nat)
    | DoLog(e: Event)
    | DoDelete(d: nat, tombstone: bool)
    | DoPurge(d: nat)

  /** Steps of the rollout command and of its surroundings: users, unrelated events, deletion, purge. */
  function Take(st: State, step: Step): State {
    match step
    case DoApply(r) => Apply(st, r, |st.rows|)
    case DoRollback(r) => Undo(st, r, |st.rows|)
    case DoUser(d, enabled, serial) => UserSet(st, d, enabled, serial)
    case DoLog(e) => if e.action.Unrelated? && e.id.Fresh? then st.(log := st.log + [e]) else st
    case DoDelete(d, tombstone) => Delete(st, d, tombstone)
    case DoPurge(d) => Purge(st, d)
  }

  function Run(st: State, steps: seq<Step>): State {
    if steps == [] then st else Take(Run(st, steps[..|steps| - 1]), steps[|steps| - 1])
  }

  // ---------------------------------------------------------------- the log explains the metadata

  /** The value a dossier's trail leaves behind, from its initial value. */
  function Replay(initial: Stored, trail: seq<Event>): Stored {
    if trail == [] then initial
    else
      var before, last := trail[..|trail| - 1], trail[|trail| - 1];
      match last.action
      case UserChange(enabled) => Bool(enabled)
      case Rollout(_) => Bool(true)
      case Rollback => if before == [] then initial else PriorOf(before[|before| - 1])
      case Unrelated => Replay(initial, before)
  }

  /** No derived id occurs twice, each rollout records the value it replaced, and each rollback follows
      at once the rollout it compensates. */
  ghost predicate TrailOk(initial: Stored, trail: seq<Event>) {
    trail == [] ||
    var before, last := trail[..|trail| - 1], trail[|trail| - 1];
    && TrailOk(initial, before)
    && (last.id.Derived? ==> !HasId(before, last.id))
    && (last.action.Rollout? ==>
          Replaceable(Replay(initial, before)) && last.action.prior == Recorded(Replay(initial, before)))
    && (last.action.Rollback? ==>
          && before != [] && before[|before| - 1].action.Rollout?
          && last.id.Derived? && before[|before| - 1].id == last.id.(compensates := false))
  }

  /** Ids derived from a rollout sit on the events they were derived for. */
  ghost predicate IdsOk(log: seq<Event>) {
    forall k :: 0 <= k < |log| ==> IdFits(log[k])
  }

  predicate IdFits(e: Event) {
    match e.id
    case Derived(_, d, compensates) => e.dossier == d && (if compensates then e.action.Rollback? else e.action.Rollout?)
    case Fresh(_) => e.action.UserChange? || e.action.Unrelated?
  }

  ghost predicate RowOk(st: State, initial: seq<Stored>, d: nat)
    requires d < |st.rows| == |initial|
  {
    && TrailOk(initial[d], Trail(st.log, d))
    && st.rows[d].Proper()
    && (!st.rows[d].cleared ==> st.rows[d].consent == Replay(initial[d], Trail(st.log, d)))
  }

  ghost predicate Inv(st: State, initial: seq<Stored>) {
    && |st.rows| == |initial|
    && IdsOk(st.log)
    && forall d: nat :: d < |st.rows| ==> RowOk(st, initial, d)
  }

  // ---------------------------------------------------------------- frames

  lemma {:induction false} TrailAfter(log: seq<Event>, e: Event, d: nat)
    ensures Trail(log + [e], d) == if e.dossier == d && !e.action.Unrelated? then Trail(log, d) + [e] else Trail(log, d)
  {
    assert (log + [e])[..|log|] == log;
  }

  lemma {:induction false} HasIdAfter(log: seq<Event>, e: Event, id: EventId)
    ensures HasId(log + [e], id) <==> HasId(log, id) || e.id == id
  {
    var more := log + [e];
    if HasId(log, id) {
      var k :| 0 <= k < |log| && log[k].id == id;
      assert more[k].id == id;
    }
    assert more[|log|] == e;
  }

  lemma {:induction false} TrailIds(log: seq<Event>, d: nat)
    requires IdsOk(log)
    ensures forall k :: 0 <= k < |Trail(log, d)| ==> IdFits(Trail(log, d)[k]) && Trail(log, d)[k].dossier == d
    ensures forall k :: 0 <= k < |Trail(log, d)| ==> !Trail(log, d)[k].action.Unrelated?
  {
    if log != [] {
      TrailIds(log[..|log| - 1], d);
    }
  }

  /** The ids derived for a dossier are all on its own trail. */
  lemma {:induction false} DerivedIdsAreOnTrail(log: seq<Event>, r: RolloutId, d: nat, compensates: bool)
    requires IdsOk(log)
    ensures HasId(log, Derived(r, d, compensates)) <==> HasId(Trail(log, d), Derived(r, d, compensates))
  {
    if log != [] {
      var id, older, last := Derived(r, d, compensates), log[..|log| - 1], log[|log| - 1];
      DerivedIdsAreOnTrail(older, r, d, compensates);
      assert log == older + [last];
      HasIdAfter(older, last, id);
      TrailAfter(older, last, d);
      HasIdAfter(Trail(older, d), last, id);
      assert IdFits(last);
    }
  }

  /** Two states that one row cannot tell apart. */
  ghost predicate SameRow(a: State, b: State, d: nat) {
    && d < |a.rows| == |b.rows|
    && a.rows[d] == b.rows[d]
    && Trail(a.log, d) == Trail(b.log, d)
    && forall r, c :: HasId(a.log, Derived(r, d, c)) <==> HasId(b.log, Derived(r, d, c))
  }

  /** Appending an event of dossier e and rewriting its row leaves every other row as it was. */
  lemma {:induction false} OtherRowsUnchanged(st: State, row: Dossier, e: Event, d: nat)
    requires e.dossier < |st.rows| && d < |st.rows| && d != e.dossier
    requires e.id.Derived? ==> e.id.dossier == e.dossier
    ensures SameRow(State(st.rows[e.dossier := row], st.log + [e]), st, d)
  {
    TrailAfter(st.log, e, d);
    forall r, c ensures HasId(st.log + [e], Derived(r, d, c)) <==> HasId(st.log, Derived(r, d, c)) {
      HasIdAfter(st.log, e, Derived(r, d, c));
    }
  }

  lemma {:induction false} ApplyTouchesRowsInTurn(st: State, r: RolloutId, upTo: nat, d: nat)
    requires upTo <= |st.rows| && d < |st.rows|
    ensures d >= upTo ==> SameRow(Apply(st, r, upTo), st, d)
    ensures d < upTo ==> SameRow(Apply(st, r, upTo), ApplyRow(st, r, d), d)
  {
    if upTo != 0 {
      ApplyTouchesRowsInTurn(st, r, upTo - 1, d);
      var before := Apply(st, r, upTo - 1);
      if d == upTo - 1 {
        SameRowApplies(before, st, r, d);
      } else if Eligible(before, r, upTo - 1) {
        OtherRowsUnchanged(before, before.rows[upTo - 1].(consent := Bool(true)),
          Event(Derived(r, upTo - 1, false), upTo - 1, Rollout(Recorded(before.rows[upTo - 1].consent))), d);
      }
    }
  }

  lemma {:induction false} SameRowApplies(a: State, b: State, r: RolloutId, d: nat)
    requires SameRow(a, b, d)
    ensures Eligible(a, r, d) <==> Eligible(b, r, d)
    ensures SameRow(ApplyRow(a, r, d), ApplyRow(b, r, d), d)
  {
    if Eligible(a, r, d) {
      var e := Event(Derived(r, d, false), d, Rollout(Recorded(a.rows[d].consent)));
      TrailAfter(a.log, e, d);
      TrailAfter(b.log, e, d);
      forall s, c ensures HasId(a.log + [e], Derived(s, d, c)) <==> HasId(b.log + [e], Derived(s, d, c)) {
        HasIdAfter(a.log, e, Derived(s, d, c));
        HasIdAfter(b.log, e, Derived(s, d, c));
      }
    }
  }

  lemma {:induction false} UndoTouchesRowsInTurn(st: State, r: RolloutId, upTo: nat, d: nat)
    requires upTo <= |st.rows| && d < |st.rows|
    ensures d >= upTo ==> SameRow(Undo(st, r, upTo), st, d)
    ensures d < upTo ==> SameRow(Undo(st, r, upTo), RollbackRow(st, r, d), d)
  {
    if upTo != 0 {
      UndoTouchesRowsInTurn(st, r, upTo - 1, d);
      var before := Undo(st, r, upTo - 1);
      if d == upTo - 1 {
        SameRowRollsBack(before, st, r, d);
      } else if Restorable(before, r, upTo - 1) {
        OtherRowsUnchanged(before, before.rows[upTo - 1].(consent := PriorOf(Latest(before.log, upTo - 1).value)),
          Event(Derived(r, upTo - 1, true), upTo - 1, Rollback), d);
      }
    }
  }

  lemma {:induction false} SameRowRollsBack(a: State, b: State, r: RolloutId, d: nat)
    requires SameRow(a, b, d)
    ensures Restorable(a, r, d) <==> Restorable(b, r, d)
    ensures SameRow(RollbackRow(a, r, d), RollbackRow(b, r, d), d)
  {
    if Restorable(a, r, d) {
      var e := Event(Derived(r, d, true), d, Rollback);
      TrailAfter(a.log, e, d);
      TrailAfter(b.log, e, d);
      forall s, c ensures HasId(a.log + [e], Derived(s, d, c)) <==> HasId(b.log + [e], Derived(s, d, c)) {
        HasIdAfter(a.log, e, Derived(s, d, c));
        HasIdAfter(b.log, e, Derived(s, d, c));
      }
    }
  }

  // ---------------------------------------------------------------- the invariant

  lemma {:induction false} AppendKeepsInv(st: State, initial: seq<Stored>, row: Dossier, e: Event)
    requires Inv(st, initial) && e.dossier < |st.rows| && !e.action.Unrelated? && IdFits(e)
    requires TrailOk(initial[e.dossier], Trail(st.log, e.dossier) + [e])
    requires row.consent == Replay(initial[e.dossier], Trail(st.log, e.dossier) + [e]) && !row.cleared
    ensures Inv(State(st.rows[e.dossier := row], st.log + [e]), initial)
  {
    var next := State(st.rows[e.dossier := row], st.log + [e]);
    forall d: nat | d < |next.rows| ensures RowOk(next, initial, d) {
      TrailAfter(st.log, e, d);
      assert RowOk(st, initial, d);
    }
  }

  lemma {:induction false} ApplyRowKeepsInv(st: State, initial: seq<Stored>, r: RolloutId, d: nat)
    requires Inv(st, initial) && d < |st.rows|
    ensures Inv(ApplyRow(st, r, d), initial)
  {
    if Eligible(st, r, d) {
      var e, trail := Event(Derived(r, d, false), d, Rollout(Recorded(st.rows[d].consent))), Trail(st.log, d);
      assert RowOk(st, initial, d);
      DerivedIdsAreOnTrail(st.log, r, d, false);
      assert (trail + [e])[..|trail|] == trail;
      AppendKeepsInv(st, initial, st.rows[d].(consent := Bool(true)), e);
    }
  }

  lemma {:induction false} RollbackRowKeepsInv(st: State, initial: seq<Stored>, r: RolloutId, d: nat)
    requires Inv(st, initial) && d < |st.rows|
    ensures Inv(RollbackRow(st, r, d), initial)
  {
    if Restorable(st, r, d) {
      var e, trail := Event(Derived(r, d, true), d, Rollback), Trail(st.log, d);
      assert RowOk(st, initial, d);
      DerivedIdsAreOnTrail(st.log, r, d, true);
      TrailIds(st.log, d);
      assert (trail + [e])[..|trail|] == trail;
      AppendKeepsInv(st, initial, st.rows[d].(consent := PriorOf(Latest(st.log, d).value)), e);
    }
  }

  lemma {:induction false} ApplyKeepsInv(st: State, initial: seq<Stored>, r: RolloutId, upTo: nat)
    requires Inv(st, initial) && upTo <= |st.rows|
    ensures Inv(Apply(st, r, upTo), initial)
  {
    if upTo != 0 {
      ApplyKeepsInv(st, initial, r, upTo - 1);
      ApplyRowKeepsInv(Apply(st, r, upTo - 1), initial, r, upTo - 1);
    }
  }

  lemma {:induction false} UndoKeepsInv(st: State, initial: seq<Stored>, r: RolloutId, upTo: nat)
    requires Inv(st, initial) && upTo <= |st.rows|
    ensures Inv(Undo(st, r, upTo), initial)
  {
    if upTo != 0 {
      UndoKeepsInv(st, initial, r, upTo - 1);
      RollbackRowKeepsInv(Undo(st, r, upTo - 1), initial, r, upTo - 1);
    }
  }

  lemma {:induction false} UserSetKeepsInv(st: State, initial: seq<Stored>, d: nat, enabled: bool, serial: nat)
    requires Inv(st, initial)
    ensures Inv(UserSet(st, d, enabled, serial), initial)
  {
    if UserSet(st, d, enabled, serial) != st {
      var e, trail := Event(Fresh(serial), d, UserChange(enabled)), Trail(st.log, d);
      assert RowOk(st, initial, d);
      assert (trail + [e])[..|trail|] == trail;
      AppendKeepsInv(st, initial, st.rows[d].(consent := Bool(enabled), cleared := false), e);
    }
  }

  lemma {:induction false} UnrelatedKeepsInv(st: State, initial: seq<Stored>, e: Event)
    requires Inv(st, initial) && e.action.Unrelated? && e.id.Fresh?
    ensures Inv(st.(log := st.log + [e]), initial)
  {
    var next := st.(log := st.log + [e]);
    forall d: nat | d < |st.rows| ensures RowOk(next, initial, d) {
      TrailAfter(st.log, e, d);
      assert RowOk(st, initial, d);
    }
  }

  /** Deletion and purge append nothing: a row may lose its value only by being cleared. */
  lemma {:induction false} RowChangeKeepsInv(st: State, initial: seq<Stored>, d: nat, row: Dossier)
    requires Inv(st, initial) && d < |st.rows|
    requires row.Proper() && (row.cleared || (row.consent == st.rows[d].consent && !st.rows[d].cleared))
    ensures Inv(st.(rows := st.rows[d := row]), initial)
  {
    var next := st.(rows := st.rows[d := row]);
    forall k: nat | k < |st.rows| ensures RowOk(next, initial, k) {
      assert RowOk(st, initial, k);
    }
  }

  lemma {:induction false} TakeKeepsInv(st: State, initial: seq<Stored>, step: Step)
    requires Inv(st, initial)
    ensures Inv(Take(st, step), initial)
  {
    match step
    case DoApply(r) => ApplyKeepsInv(st, initial, r, |st.rows|);
    case DoRollback(r) => UndoKeepsInv(st, initial, r, |st.rows|);
    case DoUser(d, enabled, serial) => UserSetKeepsInv(st, initial, d, enabled, serial);
    case DoLog(e) =>
      if Take(st, step) != st {
        UnrelatedKeepsInv(st, initial, e);
      }
    case DoDelete(d, tombstone) =>
      if Take(st, step) != st {
        assert RowOk(st, initial, d);
        RowChangeKeepsInv(st, initial, d, st.rows[d].(deleted := st.rows[d].deleted || tombstone, excluded := true));
      }
    case DoPurge(d) =>
      if Take(st, step) != st {
        RowChangeKeepsInv(st, initial, d, st.rows[d].(consent := Absent, excluded := true, cleared := true));
      }
  }

  ghost function InitialValues(rows: seq<Dossier>): seq<Stored> {
    if rows == [] then [] else InitialValues(rows[..|rows| - 1]) + [rows[|rows| - 1].consent]
  }

  lemma {:induction false} InitialValuesAt(rows: seq<Dossier>, d: nat)
    requires d < |rows|
    ensures |InitialValues(rows)| == |rows| && InitialValues(rows)[d] == rows[d].consent
  {
    if d < |rows| - 1 {
      InitialValuesAt(rows[..|rows| - 1], d);
    } else if |rows| > 1 {
      InitialValuesAt(rows[..|rows| - 1], 0);
    }
  }

  predicate AllProper(rows: seq<Dossier>) {
    forall d :: 0 <= d < |rows| ==> rows[d].Proper()
  }

  lemma {:induction false} FreshStartIsOk(rows: seq<Dossier>)
    requires AllProper(rows)
    ensures Inv(State(rows, []), InitialValues(rows))
  {
    if rows != [] {
      InitialValuesAt(rows, 0);
    }
    forall d: nat | d < |rows| ensures RowOk(State(rows, []), InitialValues(rows), d) {
      InitialValuesAt(rows, d);
    }
  }

  /** Main result, over every interleaving of rollouts, rollbacks, user decisions, deletions and purges:
      each consent value is what its audit trail says unless a purge cleared it, and then it is absent
      and out of the commands' reach; each rollout recorded the value it replaced and ran once, and
      each rollback directly follows the rollout it compensates. */
  lemma {:induction false} EveryRunIsExplainedByItsLog(rows: seq<Dossier>, steps: seq<Step>)
    requires AllProper(rows)
    ensures Inv(Run(State(rows, []), steps), InitialValues(rows))
  {
    if steps == [] {
      FreshStartIsOk(rows);
    } else {
      EveryRunIsExplainedByItsLog(rows, steps[..|steps| - 1]);
      TakeKeepsInv(Run(State(rows, []), steps[..|steps| - 1]), InitialValues(rows), steps[|steps| - 1]);
    }
  }

  // ---------------------------------------------------------------- user decisions

  /** In any run, a dossier whose latest consent event is a user change holds exactly that value, and
      it does so if and only if no purge has cleared it since. */
  lemma {:induction false} UserDecisionHolds(rows: seq<Dossier>, steps: seq<Step>, d: nat)
    requires AllProper(rows) && d < |rows|
    ensures
      var st := Run(State(rows, []), steps);
      && |st.rows| == |rows|
      && (UserDecided(st.log, d) ==>
            (st.rows[d].consent == Bool(Latest(st.log, d).value.action.enabled) <==> !st.rows[d].cleared))
  {
    EveryRunIsExplainedByItsLog(rows, steps);
    InitialValuesAt(rows, d);
    var st := Run(State(rows, []), steps);
    assert RowOk(st, InitialValues(rows), d);
  }

  /** The purge leaves the trail of a user's decision behind and takes the value away. */
  lemma {:induction false} PurgeOutlivesItsTrail(serial: nat, tombstone: bool)
    ensures
      var decided := UserSet(State([Dossier(Absent, false, false, false)], []), 0, true, serial);
      var purged := Purge(Delete(decided, 0, tombstone), 0);
      UserDecided(purged.log, 0) && Latest(purged.log, 0).value.action.enabled && purged.rows[0].consent.Absent?
  {
    TrailAfter([], Event(Fresh(serial), 0, UserChange(true)), 0);
  }

  /** After a logged user decision neither a rollout nor a rollback touches the dossier again. */
  lemma {:induction false} UserDecisionIsFinalForOperators(st: State, initial: seq<Stored>, r: RolloutId, d: nat)
    requires Inv(st, initial) && d < |st.rows| && UserDecided(st.log, d)
    ensures SameRow(Apply(st, r, |st.rows|), st, d)
    ensures SameRow(Undo(st, r, |st.rows|), st, d)
  {
    assert RowOk(st, initial, d);
    TrailIds(st.log, d);
    ApplyTouchesRowsInTurn(st, r, |st.rows|, d);
    UndoTouchesRowsInTurn(st, r, |st.rows|, d);
  }

  /** A request that finds the value already set is not logged, so a later rollout may still override
      it: a user's choice survives a rollout exactly when it was to share, or the dossier is out of the
      rollout's reach, or this rollout already ran on it, or its latest event is a user change. */
  lemma {:induction false} RequestSurvivesRollout(st: State, d: nat, enabled: bool, serial: nat, r: RolloutId)
    requires d < |st.rows| && !st.rows[d].deleted
    ensures
      var asked := UserSet(st, d, enabled, serial);
      Apply(asked, r, |st.rows|).rows[d].consent == Bool(enabled)
      <==> enabled || !asked.rows[d].Active() || HasId(asked.log, Derived(r, d, false)) || UserDecided(asked.log, d)
  {
    var asked := UserSet(st, d, enabled, serial);
    ApplyTouchesRowsInTurn(asked, r, |st.rows|, d);
  }

  /** The failing family is not empty: refusing on a legacy `false` leaves no trace and is overridden. */
  lemma {:induction false} UnloggedRefusalIsOverridden(r: RolloutId)
    ensures
      var asked := UserSet(State([Dossier(Bool(false), false, false, false)], []), 0, false, 0);
      Apply(asked, r, 1).rows[0].consent == Bool(true)
  {
    var legacy := State([Dossier(Bool(false), false, false, false)], []);
    RequestSurvivesRollout(legacy, 0, false, 0, r);
    ApplyTouchesRowsInTurn(legacy, r, 1, 0);
  }

  /** The dual: a choice to refuse survives every rollback, and a choice to share exactly when the
      rollback does not find its own rollout as the latest event. */
  lemma {:induction false} RequestSurvivesRollback(
      st: State, initial: seq<Stored>, d: nat, enabled: bool, serial: nat, r: RolloutId)
    requires Inv(st, initial) && d < |st.rows| && !st.rows[d].deleted
    ensures
      var asked := UserSet(st, d, enabled, serial);
      Undo(asked, r, |st.rows|).rows[d].consent == Bool(enabled) <==> !enabled || !Restorable(asked, r, d)
  {
    var asked := UserSet(st, d, enabled, serial);
    UserSetKeepsInv(st, initial, d, enabled, serial);
    UndoTouchesRowsInTurn(asked, r, |st.rows|, d);
    if Restorable(asked, r, d) {
      PriorIsNotTrue(asked, initial, r, d);
    }
  }

  lemma {:induction false} PriorIsLegacy(initial: Stored, trail: seq<Event>)
    requires TrailOk(initial, trail) && trail != [] && trail[|trail| - 1].action.Rollout?
    ensures PriorOf(trail[|trail| - 1]) != Bool(true)
  {
  }

  lemma {:induction false} PriorIsNotTrue(st: State, initial: seq<Stored>, r: RolloutId, d: nat)
    requires Inv(st, initial) && d < |st.rows| && Restorable(st, r, d)
    ensures RollbackRow(st, r, d).rows[d].consent != Bool(true)
  {
    assert RowOk(st, initial, d);
    TrailIds(st.log, d);
    PriorIsLegacy(initial[d], Trail(st.log, d));
  }

  /** Confirming what a rollout has set leaves no trace either, and its rollback takes it away. */
  lemma {:induction false} UnloggedConsentIsTakenBack(r: RolloutId)
    ensures
      var rolledOut := Apply(State([Dossier(Bool(false), false, false, false)], []), r, 1);
      Undo(UserSet(rolledOut, 0, true, 0), r, 1).rows[0].consent == Bool(false)
  {
    var legacy := State([Dossier(Bool(false), false, false, false)], []);
    RowAfterApplyAndUndo(legacy, r, 0);
    ApplyTouchesRowsInTurn(legacy, r, 1, 0);
  }

  /** Rows that no command of an operator can change: out of reach, decided by a logged user change,
      or sharing from the start with no consent event at all. */
  predicate Settled(st: State, d: nat)
    requires d < |st.rows|
  {
    || !st.rows[d].Active()
    || (UserDecided(st.log, d) && st.rows[d].consent.Bool?)
    || (st.rows[d].consent == Bool(true) && Latest(st.log, d).None?)
  }

  predicate Operators(steps: seq<Step>) {
    forall k :: 0 <= k < |steps| ==> steps[k].DoApply? || steps[k].DoRollback?
  }

  lemma SettledRowIsOutOfReach(st: State, d: nat, r: RolloutId)
    requires d < |st.rows| && Settled(st, d) && IdsOk(st.log)
    ensures !Eligible(st, r, d) && !Restorable(st, r, d)
  {
    TrailIds(st.log, d);
  }

  lemma {:induction false} SettledRowsStay(st: State, d: nat, steps: seq<Step>)
    requires d < |st.rows| && Settled(st, d) && Operators(steps) && IdsOk(st.log)
    ensures SameRow(Run(st, steps), st, d)
  {
    if steps != [] {
      var before, last := Run(st, steps[..|steps| - 1]), steps[|steps| - 1];
      SettledRowsStay(st, d, steps[..|steps| - 1]);
      SettledRowIsOutOfReach(st, d, last.r);
      if last.DoApply? {
        SameRowApplies(before, st, last.r, d);
        ApplyTouchesRowsInTurn(before, last.r, |before.rows|, d);
      } else {
        SameRowRollsBack(before, st, last.r, d);
        UndoTouchesRowsInTurn(before, last.r, |before.rows|, d);
      }
    }
  }

  function UnusedName(log: seq<Event>): (name: string)
    ensures forall d, c :: !HasId(log, Derived(RolloutId(name), d, c))
    ensures forall k :: 0 <= k < |log| && log[k].id.Derived? ==> |log[k].id.rollout.name| < |name|
  {
    if log == [] then "a"
    else
      var name, last := UnusedName(log[..|log| - 1]), log[|log| - 1];
      assert log == log[..|log| - 1] + [last];
      if last.id.Derived? then name + last.id.rollout.name + "a" else name
  }

  lemma {:induction false} RollbackFollowsItsRollout(initial: Stored, trail: seq<Event>, r: RolloutId, d: nat)
    requires TrailOk(initial, trail) && HasId(trail, Derived(r, d, true))
    requires forall k :: 0 <= k < |trail| ==> IdFits(trail[k])
    ensures HasId(trail[..|trail| - 1], Derived(r, d, false))
  {
    var before, last := trail[..|trail| - 1], trail[|trail| - 1];
    if last.id == Derived(r, d, true) {
      assert before[|before| - 1].id == Derived(r, d, false);
    } else {
      assert HasId(before, Derived(r, d, true)) by {
        assert trail == before + [last];
        HasIdAfter(before, last, Derived(r, d, true));
      }
      RollbackFollowsItsRollout(initial, before, r, d);
    }
  }

  /** A shared dossier whose latest event is no user change was rolled out last, and can be rolled back. */
  lemma {:induction false} SharedByRollout(st: State, initial: seq<Stored>, d: nat) returns (r: RolloutId)
    requires Inv(st, initial) && d < |st.rows| && !Settled(st, d) && st.rows[d].consent == Bool(true)
    ensures Restorable(st, r, d)
  {
    var trail := Trail(st.log, d);
    var before, last := trail[..|trail| - 1], trail[|trail| - 1];
    assert RowOk(st, initial, d);
    TrailIds(st.log, d);
    assert last.action.Rollout? by {
      if last.action.Rollback? {
        PriorIsLegacy(initial[d], before);
      }
    }
    r := last.id.rollout;
    DerivedIdsAreOnTrail(st.log, r, d, true);
    DerivedIdsAreOnTrail(st.log, r, d, false);
    if HasId(trail, Derived(r, d, true)) {
      RollbackFollowsItsRollout(initial[d], trail, r, d);
    }
  }

  ghost predicate Holds(st: State, d: nat, enabled: bool) {
    d < |st.rows| && st.rows[d].consent == Bool(enabled)
  }

  /** A user's choice withstands every sequence of rollouts and rollbacks exactly when it left the
      dossier settled, which can be read off the row and its latest event. */
  lemma {:induction false} RequestIsSafeExactlyWhenSettled(
      st: State, initial: seq<Stored>, d: nat, enabled: bool, serial: nat)
    requires Inv(st, initial) && d < |st.rows| && !st.rows[d].deleted
    ensures
      var asked := UserSet(st, d, enabled, serial);
      (forall steps :: Operators(steps) ==> Holds(Run(asked, steps), d, enabled)) <==> Settled(asked, d)
  {
    var asked := UserSet(st, d, enabled, serial);
    UserSetKeepsInv(st, initial, d, enabled, serial);
    if Settled(asked, d) {
      forall steps | Operators(steps) ensures Holds(Run(asked, steps), d, enabled) {
        SettledRowsStay(asked, d, steps);
      }
    } else {
      var steps := OverridingCommand(asked, initial, d, enabled);
    }
  }

  lemma {:induction false} OverridingCommand(st: State, initial: seq<Stored>, d: nat, enabled: bool)
    returns (steps: seq<Step>)
    requires Inv(st, initial) && Holds(st, d, enabled) && !Settled(st, d)
    ensures Operators(steps) && !Holds(Run(st, steps), d, enabled)
  {
    if enabled {
      var r := SharedByRollout(st, initial, d);
      steps := [DoRollback(r)];
      UndoTouchesRowsInTurn(st, r, |st.rows|, d);
      PriorIsNotTrue(st, initial, r, d);
      assert Run(st, steps) == Take(st, DoRollback(r)) by { assert steps[..0] == []; }
    } else {
      var r := RolloutId(UnusedName(st.log));
      steps := [DoApply(r)];
      ApplyTouchesRowsInTurn(st, r, |st.rows|, d);
      assert Run(st, steps) == Take(st, DoApply(r)) by { assert steps[..0] == []; }
    }
  }

  // ---------------------------------------------------------------- restoration

  /** Rolling back a rollout that has just been applied, and not before. */
  ghost predicate NeverRan(st: State, r: RolloutId) {
    forall d, c :: !HasId(st.log, Derived(r, d, c))
  }

  lemma {:induction false} RowAfterApplyAndUndo(st: State, r: RolloutId, d: nat)
    requires NeverRan(st, r) && d < |st.rows|
    ensures
      var after := Undo(Apply(st, r, |st.rows|), r, |st.rows|);
      after.rows[d] == if Eligible(st, r, d) then st.rows[d].(consent := Recorded(st.rows[d].consent)) else st.rows[d]
  {
    var applied := Apply(st, r, |st.rows|);
    ApplyTouchesRowsInTurn(st, r, |st.rows|, d);
    UndoTouchesRowsInTurn(applied, r, |st.rows|, d);
    if Eligible(st, r, d) {
      var e := Event(Derived(r, d, false), d, Rollout(Recorded(st.rows[d].consent)));
      TrailAfter(st.log, e, d);
      HasIdAfter(st.log, e, Derived(r, d, false));
      HasIdAfter(st.log, e, Derived(r, d, true));
      assert SameRow(applied, ApplyRow(st, r, d), d);
    } else {
      assert SameRow(applied, st, d);
      assert !HasId(applied.log, Derived(r, d, false));
    }
  }

  /** A rollback right after a fresh rollout restores every row exactly when no row the rollout
      replaced held the marker text, which the rollout cannot tell from an absent key. */
  lemma {:induction false} RollbackRestores(st: State, r: RolloutId)
    requires NeverRan(st, r)
    ensures
      Undo(Apply(st, r, |st.rows|), r, |st.rows|).rows == st.rows
      <==> forall d: nat :: d < |st.rows| && Eligible(st, r, d) ==> !st.rows[d].consent.Marker?
  {
    var after := Undo(Apply(st, r, |st.rows|), r, |st.rows|);
    forall d: nat | d < |st.rows|
      ensures after.rows[d] == st.rows[d] <==> (Eligible(st, r, d) ==> !st.rows[d].consent.Marker?)
    {
      RowAfterApplyAndUndo(st, r, d);
    }
    if after.rows == st.rows {
    } else {
      var d: nat :| d < |st.rows| && after.rows[d] != st.rows[d];
    }
  }

  /** The failing family is not empty: a stored marker text is gone after a rollback. */
  lemma {:induction false} MarkerIsNotRestored(r: RolloutId)
    ensures
      var start := State([Dossier(Marker, false, false, false)], []);
      Undo(Apply(start, r, 1), r, 1).rows[0].consent == Absent
  {
    RowAfterApplyAndUndo(State([Dossier(Marker, false, false, false)], []), r, 0);
  }

  // ---------------------------------------------------------------- counts

  /** Rows among the first `upTo` that are candidates, would be updated, or would be restored. */
  function Candidates(st: State, upTo: nat): nat
    requires upTo <= |st.rows|
  {
    if upTo == 0 then 0 else Candidates(st, upTo - 1) + if st.rows[upTo - 1].Active() then 1 else 0
  }

  function EligibleRows(st: State, r: RolloutId, upTo: nat): (n: nat)
    requires upTo <= |st.rows|
    ensures n <= Candidates(st, upTo)
  {
    if upTo == 0 then 0 else EligibleRows(st, r, upTo - 1) + if Eligible(st, r, upTo - 1) then 1 else 0
  }

  function RestorableRows(st: State, r: RolloutId, upTo: nat): nat
    requires upTo <= |st.rows|
  {
    if upTo == 0 then 0 else RestorableRows(st, r, upTo - 1) + if Restorable(st, r, upTo - 1) then 1 else 0
  }

  /** Rows this rollout wrote on, among the first `upTo`. */
  function RolledOutRows(st: State, r: RolloutId, upTo: nat): (n: nat)
    requires upTo <= |st.rows|
    ensures RestorableRows(st, r, upTo) <= n
  {
    if upTo == 0 then 0
    else if st.rows[upTo - 1].Active() && HasId(st.log, Derived(r, upTo - 1, false)) then
      RolledOutRows(st, r, upTo - 1) + 1
    else RolledOutRows(st, r, upTo - 1)
  }

  /** A second rollout under the same id finds nothing left to update. */
  lemma {:induction false} ApplyTwice(st: State, r: RolloutId, d: nat)
    requires d < |st.rows|
    ensures !Eligible(Apply(st, r, |st.rows|), r, d)
  {
    var applied := Apply(st, r, |st.rows|);
    ApplyTouchesRowsInTurn(st, r, |st.rows|, d);
    if Eligible(st, r, d) {
      assert SameRow(applied, ApplyRow(st, r, d), d);
    } else {
      SameRowApplies(applied, st, r, d);
    }
  }

  /** A second rollback under the same id restores nothing more. */
  lemma {:induction false} UndoTwice(st: State, r: RolloutId, d: nat)
    requires d < |st.rows|
    ensures !Restorable(Undo(st, r, |st.rows|), r, d)
  {
    var undone := Undo(st, r, |st.rows|);
    UndoTouchesRowsInTurn(st, r, |st.rows|, d);
    if Restorable(st, r, d) {
      var e := Event(Derived(r, d, true), d, Rollback);
      HasIdAfter(st.log, e, Derived(r, d, true));
      assert SameRow(undone, RollbackRow(st, r, d), d);
    } else {
      SameRowRollsBack(undone, st, r, d);
    }
  }

  // ---------------------------------------------------------------- the commands in terms of rows and log alone

  predicate ConsentEvent(log: seq<Event>, d: nat, k: nat) {
    k < |log| && log[k].dossier == d && !log[k].action.Unrelated?
  }

  ghost predicate LastConsentEvent(log: seq<Event>, d: nat, k: nat) {
    ConsentEvent(log, d, k) && forall j: nat :: j > k ==> !ConsentEvent(log, d, j)
  }

  lemma {:induction false} LatestOfLog(log: seq<Event>, d: nat)
    ensures Latest(log, d).None? <==> forall k: nat :: !ConsentEvent(log, d, k)
    ensures Latest(log, d).Some? ==> exists k: nat :: LastConsentEvent(log, d, k) && log[k] == Latest(log, d).value
  {
    if log != [] {
      var older, n := log[..|log| - 1], |log| - 1;
      LatestOfLog(older, d);
      assert forall k: nat :: k < n ==> (ConsentEvent(older, d, k) <==> ConsentEvent(log, d, k));
      if ConsentEvent(log, d, n) {
        assert LastConsentEvent(log, d, n) && log[n] == Latest(log, d).value;
      } else if Latest(log, d).Some? {
        var k: nat :| LastConsentEvent(older, d, k) && older[k] == Latest(older, d).value;
        assert LastConsentEvent(log, d, k) && log[k] == Latest(log, d).value;
      }
    }
  }

  ghost predicate LastIs(log: seq<Event>, d: nat, e: Event) {
    exists k: nat :: LastConsentEvent(log, d, k) && log[k] == e
  }

  lemma {:induction false} LatestIsLast(log: seq<Event>, d: nat, e: Event)
    ensures Latest(log, d) == Some(e) <==> LastIs(log, d, e)
  {
    LatestOfLog(log, d);
    if k: nat :| LastConsentEvent(log, d, k) && log[k] == e {
      assert ConsentEvent(log, d, k);
      var j: nat :| LastConsentEvent(log, d, j) && log[j] == Latest(log, d).value;
      assert j == k;
    }
  }

  ghost predicate LastIsUserChange(log: seq<Event>, d: nat) {
    exists e :: LastIs(log, d, e) && e.action.UserChange?
  }

  ghost predicate Logged(log: seq<Event>, id: EventId) {
    exists e :: e in log && e.id == id
  }

  /** What the rollout turns on: the dossier is not deleted and not up for deletion, holds no consent yet, and the
      rollout did not write on it before. A stored `false` counts as no consent unless the user chose it. */
  ghost predicate TurnedOn(st: State, r: RolloutId, d: nat)
    requires d < |st.rows|
  {
    && !st.rows[d].deleted && !st.rows[d].excluded && !Logged(st.log, Derived(r, d, false))
    && match st.rows[d].consent
       case Bool(b) => !b && !LastIsUserChange(st.log, d)
       case Malformed(_) => false
       case _ => true
  }

  lemma {:induction false} EligibleOfRow(st: State, r: RolloutId, d: nat)
    requires d < |st.rows|
    ensures Eligible(st, r, d) <==> TurnedOn(st, r, d)
  {
    if Latest(st.log, d).Some? {
      LatestIsLast(st.log, d, Latest(st.log, d).value);
    }
    forall e | LastIs(st.log, d, e) ensures Latest(st.log, d) == Some(e) {
      LatestIsLast(st.log, d, e);
    }
    LoggedIds(st.log, Derived(r, d, false));
  }

  lemma LoggedIds(log: seq<Event>, id: EventId)
    ensures HasId(log, id) <==> Logged(log, id)
  {
    if k :| 0 <= k < |log| && log[k].id == id {
      assert log[k] in log;
    }
  }

  /** What a rollout appends for a row. */
  ghost predicate RolloutEvent(st: State, r: RolloutId, e: Event) {
    && e.dossier < |st.rows| && e.id == Derived(r, e.dossier, false)
    && TurnedOn(st, r, e.dossier)
    && e.action == Rollout(if st.rows[e.dossier].consent.Marker? then Absent else st.rows[e.dossier].consent)
  }

  /** Main result on a rollout, in terms of rows and log alone: it sets the consent of the rows it turns on and leaves
      every other row as it is. */
  lemma {:induction false} RolloutOfRows(st: State, r: RolloutId, d: nat)
    requires d < |st.rows|
    ensures Apply(st, r, |st.rows|).rows[d]
         == if TurnedOn(st, r, d) then st.rows[d].(consent := Bool(true)) else st.rows[d]
  {
    EligibleOfRow(st, r, d);
    ApplyTouchesRowsInTurn(st, r, |st.rows|, d);
  }

  /** Each row it turns on gets one event with the value it replaced; nothing else is written. */
  lemma {:induction false} RolloutIsLogged(st: State, r: RolloutId, upTo: nat)
    requires upTo <= |st.rows|
    ensures var after := Apply(st, r, upTo);
      && st.log <= after.log
      && |after.log| == |st.log| + EligibleRows(st, r, upTo)
      && forall k: nat :: |st.log| <= k < |after.log| ==> RolloutEvent(st, r, after.log[k])
  {
    if upTo > 0 {
      var d, before := upTo - 1, Apply(st, r, upTo - 1);
      RolloutIsLogged(st, r, d);
      ApplyTouchesRowsInTurn(st, r, d, d);
      SameRowApplies(before, st, r, d);
      EligibleOfRow(st, r, d);
    }
  }

  ghost function TurnedOnAmong(st: State, r: RolloutId, upTo: nat): set<nat>
    requires upTo <= |st.rows|
  {
    set d: nat | d < upTo && TurnedOn(st, r, d)
  }

  /** What a rollback takes back: a row within reach that still shares and whose last consent event is this rollout,
      not yet rolled back. */
  ghost predicate TakenBack(st: State, r: RolloutId, d: nat, prior: Stored)
    requires d < |st.rows|
  {
    && !st.rows[d].deleted && !st.rows[d].excluded && st.rows[d].consent == Bool(true)
    && LastIs(st.log, d, Event(Derived(r, d, false), d, Rollout(prior)))
    && !Logged(st.log, Derived(r, d, true))
  }

  lemma {:induction false} RestorableOfRow(st: State, r: RolloutId, d: nat)
    requires d < |st.rows| && IdsOk(st.log)
    ensures Restorable(st, r, d) <==> exists prior :: TakenBack(st, r, d, prior)
    ensures forall prior :: TakenBack(st, r, d, prior) ==> PriorOf(Latest(st.log, d).value) == prior
  {
    LoggedIds(st.log, Derived(r, d, false));
    LoggedIds(st.log, Derived(r, d, true));
    forall prior | TakenBack(st, r, d, prior)
      ensures Latest(st.log, d) == Some(Event(Derived(r, d, false), d, Rollout(prior))) && Restorable(st, r, d)
    {
      var e := Event(Derived(r, d, false), d, Rollout(prior));
      LatestIsLast(st.log, d, e);
      assert e in st.log;
    }
    if Restorable(st, r, d) {
      var e := Latest(st.log, d).value;
      LatestIsLast(st.log, d, e);
      TrailIds(st.log, d);
      assert TakenBack(st, r, d, e.action.prior);
    }
  }

  /** Main result on a rollback: it gives the rows it takes back their recorded value, an absent one for none, and
      leaves every other row as it is. */
  lemma {:induction false} RollbackOfRows(st: State, r: RolloutId, d: nat)
    requires d < |st.rows| && IdsOk(st.log)
    ensures var after := Undo(st, r, |st.rows|);
      && (forall prior :: TakenBack(st, r, d, prior) ==> after.rows[d] == st.rows[d].(consent := prior))
      && ((forall prior :: !TakenBack(st, r, d, prior)) ==> after.rows[d] == st.rows[d])
  {
    RestorableOfRow(st, r, d);
    UndoTouchesRowsInTurn(st, r, |st.rows|, d);
  }

  /** Each row it takes back gets one event; nothing else is written. */
  lemma {:induction false} RollbackIsLogged(st: State, r: RolloutId, upTo: nat)
    requires upTo <= |st.rows|
    ensures var after := Undo(st, r, upTo);
      && st.log <= after.log
      && |after.log| == |st.log| + RestorableRows(st, r, upTo)
      && forall k: nat :: |st.log| <= k < |after.log| ==> RollbackEvent(st, r, after.log[k])
  {
    if upTo > 0 {
      var d, before := upTo - 1, Undo(st, r, upTo - 1);
      RollbackIsLogged(st, r, d);
      UndoTouchesRowsInTurn(st, r, d, d);
      SameRowRollsBack(before, st, r, d);
    }
  }

  ghost predicate RollbackEvent(st: State, r: RolloutId, e: Event) {
    && e.dossier < |st.rows| && Restorable(st, r, e.dossier)
    && e == Event(Derived(r, e.dossier, true), e.dossier, Rollback)
  }

  ghost function WithinReach(st: State, upTo: nat): set<nat>
    requires upTo <= |st.rows|
  {
    set d: nat | d < upTo && !st.rows[d].deleted && !st.rows[d].excluded
  }

  /** The counts of the reports are numbers of rows. */
  lemma {:induction false} CountsOfRows(st: State, r: RolloutId, upTo: nat)
    requires upTo <= |st.rows|
    ensures Candidates(st, upTo) == |WithinReach(st, upTo)|
    ensures EligibleRows(st, r, upTo) == |TurnedOnAmong(st, r, upTo)|
  {
    if upTo == 0 {
      assert TurnedOnAmong(st, r, 0) == {} && WithinReach(st, 0) == {};
    } else {
      var d := upTo - 1;
      CountsOfRows(st, r, d);
      EligibleOfRow(st, r, d);
      OneMore(WithinReach(st, d), WithinReach(st, upTo), d, st.rows[d].Active());
      OneMore(TurnedOnAmong(st, r, d), TurnedOnAmong(st, r, upTo), d, TurnedOn(st, r, d));
    }
  }

  ghost function RolledOutAmong(st: State, r: RolloutId, upTo: nat): set<nat>
    requires upTo <= |st.rows|
  {
    set d: nat | d < upTo && !st.rows[d].deleted && !st.rows[d].excluded && Logged(st.log, Derived(r, d, false))
  }

  ghost predicate WouldBeTakenBack(st: State, r: RolloutId, d: nat)
    requires d < |st.rows|
  {
    exists prior :: TakenBack(st, r, d, prior)
  }

  ghost function TakenBackAmong(st: State, r: RolloutId, upTo: nat): set<nat>
    requires upTo <= |st.rows|
  {
    set d: nat | d < upTo && WouldBeTakenBack(st, r, d)
  }

  lemma {:induction false} TakenBackCount(st: State, r: RolloutId, upTo: nat)
    requires upTo <= |st.rows| && IdsOk(st.log)
    ensures RestorableRows(st, r, upTo) == |TakenBackAmong(st, r, upTo)|
  {
    if upTo == 0 {
      assert TakenBackAmong(st, r, 0) == {};
    } else {
      var d := upTo - 1;
      TakenBackCount(st, r, d);
      RestorableOfRow(st, r, d);
      OneMore(TakenBackAmong(st, r, d), TakenBackAmong(st, r, upTo), d, WouldBeTakenBack(st, r, d));
    }
  }

  lemma {:induction false} RolledOutCount(st: State, r: RolloutId, upTo: nat)
    requires upTo <= |st.rows|
    ensures RolledOutRows(st, r, upTo) == |RolledOutAmong(st, r, upTo)|
  {
    if upTo == 0 {
      assert RolledOutAmong(st, r, 0) == {};
    } else {
      var d := upTo - 1;
      RolledOutCount(st, r, d);
      LoggedIds(st.log, Derived(r, d, false));
      OneMore(RolledOutAmong(st, r, d), RolledOutAmong(st, r, upTo), d,
        st.rows[d].Active() && HasId(st.log, Derived(r, d, false)));
    }
  }

  /** A rollback skips the rows it finds its rollout on and does not take back. */
  lemma {:induction false} RollbackCountsOfRows(st: State, r: RolloutId)
    requires IdsOk(st.log)
    ensures RestorableRows(st, r, |st.rows|) == |TakenBackAmong(st, r, |st.rows|)|
    ensures RolledOutRows(st, r, |st.rows|) == |RolledOutAmong(st, r, |st.rows|)|
  {
    TakenBackCount(st, r, |st.rows|);
    RolledOutCount(st, r, |st.rows|);
  }

  /** A deletion request takes a dossier out of the commands' reach for good, and a purge empties only such a dossier;
      neither writes on the consent log. */
  lemma {:induction false} DeletionOfRows(st: State, d: nat, k: nat, tombstone: bool)
    requires k < |st.rows|
    ensures var row, marked, purged := st.rows[k], Delete(st, d, tombstone), Purge(st, d);
      && marked.log == st.log && purged.log == st.log
      && |marked.rows| == |st.rows| && |purged.rows| == |st.rows|
      && (k != d ==> marked.rows[k] == row && purged.rows[k] == row)
      && (k == d ==> marked.rows[k] == Dossier(row.consent, tombstone || row.deleted, true, row.cleared))
      && (k == d && row.Active() ==> purged.rows[k] == row)
      && (k == d && (row.deleted || row.excluded) ==> purged.rows[k] == Dossier(Absent, row.deleted, true, true))
  {
  }

  /** The row a rollback comes to is as it was before. */
  lemma {:induction false} UntouchedRow(start: State, now: State, r: RolloutId, d: nat)
    requires d < |start.rows| && now == Undo(start, r, d)
    ensures now.rows[d] == start.rows[d]
    ensures HasId(now.log, Derived(r, d, false)) <==> HasId(start.log, Derived(r, d, false))
    ensures Restorable(now, r, d) <==> Restorable(start, r, d)
    ensures Undo(start, r, d + 1) == RollbackRow(now, r, d)
  {
    UndoTouchesRowsInTurn(start, r, d, d);
    SameRowRollsBack(now, start, r, d);
  }

  // ---------------------------------------------------------------- the command

  class ConsentStore {
    var rows: seq<Dossier>
    var log: seq<Event>

    ghost function Value(): State
      reads this
    {
      State(rows, log)
    }

    constructor (rows: seq<Dossier>)
      ensures Value() == State(rows, [])
    {
      this.rows := rows;
      this.log := [];
    }

    /** Visits the candidates in order; a dry run only counts. Both modes report the counts of the
        state they found. */
    method ApplyRollout(r: RolloutId, apply: bool) returns (eligible: nat, updated: nat, skipped: nat)
      modifies this
      ensures Value() == if apply then Apply(old(Value()), r, |old(rows)|) else old(Value())
      ensures eligible == Candidates(old(Value()), |old(rows)|)
      ensures updated == EligibleRows(old(Value()), r, |old(rows)|)
      ensures skipped == eligible - updated
    {
      ghost var start := Value();
      eligible, updated, skipped := 0, 0, 0;
      var d := 0;
      while d < |rows|
        invariant 0 <= d <= |rows| == |start.rows|
        invariant Value() == if apply then Apply(start, r, d) else start
        invariant eligible == Candidates(start, d) && updated == EligibleRows(start, r, d)
        invariant skipped == eligible - updated
      {
        ApplyTouchesRowsInTurn(start, r, d, d);
        SameRowApplies(Value(), start, r, d);
        if rows[d].Active() {
          eligible := eligible + 1;
          if Eligible(State(rows, log), r, d) {
            updated := updated + 1;
            if apply {
              var prior := rows[d].consent;
              rows := rows[d := rows[d].(consent := Bool(true))];
              log := log + [Event(Derived(r, d, false), d, Rollout(Recorded(prior)))];
            }
          } else {
            skipped := skipped + 1;
          }
        }
        d := d + 1;
      }
    }

    /** Restores the rows whose latest consent event is this rollout. */
    method RollbackRollout(r: RolloutId) returns (restored: nat, skipped: nat)
      modifies this
      ensures Value() == Undo(old(Value()), r, |old(rows)|)
      ensures restored == RestorableRows(old(Value()), r, |old(rows)|)
      ensures skipped == RolledOutRows(old(Value()), r, |old(rows)|) - restored
    {
      ghost var start := Value();
      restored, skipped := 0, 0;
      var d := 0;
      while d < |rows|
        invariant 0 <= d <= |rows| == |start.rows|
        invariant Value() == Undo(start, r, d)
        invariant restored == RestorableRows(start, r, d)
        invariant skipped == RolledOutRows(start, r, d) - restored
      {
        UntouchedRow(start, Value(), r, d);
        if rows[d].Active() && HasId(log, Derived(r, d, false)) {
          var done := RollbackOne(r, d);
          if done {
            restored := restored + 1;
          } else {
            skipped := skipped + 1;
          }
        }
        d := d + 1;
      }
    }

    method RollbackOne(r: RolloutId, d: nat) returns (done: bool)
      requires d < |rows|
      modifies this
      ensures done == Restorable(old(Value()), r, d)
      ensures Value() == RollbackRow(old(Value()), r, d)
    {
      done := Restorable(State(rows, log), r, d);
      if done {
        var prior := PriorOf(Latest(log, d).value);
        rows := rows[d := rows[d].(consent := prior)];
        log := log + [Event(Derived(r, d, true), d, Rollback)];
      }
    }

    /** The dry run of a rollback: the counts `RollbackRollout` would report, and no change. */
    method PreviewRollback(r: RolloutId) returns (restorable: nat, skipped: nat)
      ensures restorable == RestorableRows(Value(), r, |rows|)
      ensures skipped == RolledOutRows(Value(), r, |rows|) - restorable
    {
      restorable, skipped := 0, 0;
      for d := 0 to |rows|
        invariant restorable == RestorableRows(Value(), r, d)
        invariant skipped == RolledOutRows(Value(), r, d) - restorable
      {
        if rows[d].Active() && HasId(log, Derived(r, d, false)) {
          if Restorable(State(rows, log), r, d) {
            restorable := restorable + 1;
          } else {
            skipped := skipped + 1;
          }
        }
      }
    }

    /** A user's decision, logged only when it changes the stored value. */
    method UpdateConsent(d: nat, enabled: bool, serial: nat) returns (found: bool)
      modifies this
      ensures found == (d < |old(rows)| && !old(rows)[d].deleted)
      ensures Value() == UserSet(old(Value()), d, enabled, serial)
    {
      found := d < |rows| && !rows[d].deleted;
      if found && rows[d].consent != Bool(enabled) {
        rows := rows[d := rows[d].(consent := Bool(enabled), cleared := false)];
        log := log + [Event(Fresh(serial), d, UserChange(enabled))];
      }
    }
  }
}
