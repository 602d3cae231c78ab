/** Invariants scored over a stream of workflow events (evals/workflow_gate.py).

    An event is what the checks look up in it; stable texts, run ids and the like are numbers. */
module WorkflowGate {
  import opened Basics

  datatype Event = Event(
    run: nat, scope: nat, sequence: Option<int>, id: Option<nat>, content: nat, request: Option<nat>, work: nat,
    replayDenied: bool, idempotencyDenied: bool, recoveryFailed: bool, accessDenied: bool)
  // scope    tenant and dossier
  // content  stable text of the event without its sequence number
  // request  tenant, dossier and idempotency key, when there is a key
  // work     stable text of the command or, without one, of the event without id and sequence number

  datatype Verdict = Verdict(ordering: bool, replay: bool, idempotency: bool, recovery: bool, security: bool)

  // ---------------------------------------------------------------- the invariants, event by event and pair by pair

  /** The events of one run, in order. */
  function OfRun(events: seq<Event>, run: nat): seq<Event> {
    if events == [] then []
    else
      var before, e := OfRun(events[..|events| - 1], run), events[|events| - 1];
      if e.run == run then before + [e] else before
  }

  predicate Numbered(events: seq<Event>) {
    forall i :: 0 <= i < |events| ==> events[i].sequence == Some(i + 1)
  }

  ghost predicate RunsNumbered(events: seq<Event>) {
    forall run :: Numbered(OfRun(events, run))
  }

  ghost predicate Ordered(events: seq<Event>) {
    events != [] && RunsNumbered(events)
  }

  ghost predicate Replayable(events: seq<Event>) {
    && (forall a :: a in events ==> !a.replayDenied)
    && forall a, b ::
         a in events && b in events && a.id.Some? && a.run == b.run && a.id == b.id ==> a.content == b.content
  }

  ghost predicate Idempotent(events: seq<Event>) {
    && (forall a :: a in events ==> !a.idempotencyDenied)
    && forall a, b :: a in events && b in events && a.request.Some? && a.request == b.request ==> a.work == b.work
  }

  ghost predicate Recovered(events: seq<Event>) {
    forall a :: a in events ==> !a.recoveryFailed
  }

  ghost predicate Scoped(events: seq<Event>) {
    && (forall a :: a in events ==> !a.accessDenied)
    && forall a, b :: a in events && b in events && a.run == b.run ==> a.scope == b.scope
  }

  // ---------------------------------------------------------------- the checks, as folds

  function Count(n: nat): (r: seq<int>)
    ensures |r| == n && forall i :: 0 <= i < n ==> r[i] == i + 1
  {
    if n == 0 then [] else Count(n - 1) + [n]
  }

  function Sequences(events: seq<Event>): (r: seq<int>)
    requires forall i :: 0 <= i < |events| ==> events[i].sequence.Some?
    ensures |r| == |events| && forall i :: 0 <= i < |events| ==> r[i] == events[i].sequence.value
  {
    if events == [] then [] else Sequences(events[..|events| - 1]) + [events[|events| - 1].sequence.value]
  }

  ghost predicate SoundNumbers(events: seq<Event>) {
    forall i :: 0 <= i < |events| ==> events[i].sequence.Some? && events[i].sequence.value >= 1
  }

  lemma {:induction false} OfRunMembers(events: seq<Event>, run: nat, e: Event)
    ensures e in OfRun(events, run) <==> e in events && e.run == run
  {
    if events != [] {
      OfRunMembers(events[..|events| - 1], run, e);
      assert events == events[..|events| - 1] + [events[|events| - 1]];
    }
  }

  /** The sequence numbers of each run, as collected so far. */
  ghost predicate PerRun(perRun: map<nat, seq<int>>, events: seq<Event>)
    requires SoundNumbers(events)
  {
    forall run ::
      SoundNumbers(OfRun(events, run)) &&
      (if OfRun(events, run) == [] then run !in perRun
       else run in perRun && perRun[run] == Sequences(OfRun(events, run)))
  }

  lemma {:induction false} NextNumber(perRun: map<nat, seq<int>>, events: seq<Event>, e: Event)
    requires SoundNumbers(events) && PerRun(perRun, events) && e.sequence.Some? && e.sequence.value >= 1
    ensures SoundNumbers(events + [e])
    ensures var more := perRun[e.run := (if e.run in perRun then perRun[e.run] else []) + [e.sequence.value]];
      PerRun(more, events + [e])
  {
  }

  lemma {:induction false} OrderedNumbers(events: seq<Event>)
    requires RunsNumbered(events)
    ensures SoundNumbers(events)
  {
    forall i | 0 <= i < |events| ensures events[i].sequence.Some? && events[i].sequence.value >= 1 {
      OfRunMembers(events, events[i].run, events[i]);
      var k :| 0 <= k < |OfRun(events, events[i].run)| && OfRun(events, events[i].run)[k] == events[i];
      assert Numbered(OfRun(events, events[i].run));
    }
  }

  ghost predicate AllCounted(perRun: map<nat, seq<int>>) {
    forall run :: run in perRun ==> perRun[run] == Count(|perRun[run]|)
  }

  lemma {:induction false} OrderedByRun(perRun: map<nat, seq<int>>, events: seq<Event>)
    requires SoundNumbers(events) && PerRun(perRun, events)
    ensures AllCounted(perRun) <==> RunsNumbered(events)
  {
  }

  method CollectNumbers(events: seq<Event>) returns (sound: bool, perRun: map<nat, seq<int>>)
    ensures sound <==> SoundNumbers(events)
    ensures sound ==> PerRun(perRun, events)
  {
    perRun := map[];
    for i := 0 to |events|
      invariant SoundNumbers(events[..i]) && PerRun(perRun, events[..i])
    {
      var e := events[i];
      if e.sequence.None? || e.sequence.value < 1 {
        return false, perRun;
      }
      NextNumber(perRun, events[..i], e);
      assert events[..i + 1] == events[..i] + [e];
      perRun := perRun[e.run := (if e.run in perRun then perRun[e.run] else []) + [e.sequence.value]];
    }
    assert events[..|events|] == events;
    return true, perRun;
  }

  method OrderingOk(events: seq<Event>) returns (ok: bool)
    ensures ok <==> Ordered(events)
  {
    if events == [] {
      return false;
    }
    var sound, perRun := CollectNumbers(events);
    if !sound {
      if Ordered(events) {
        OrderedNumbers(events);
      }
      return false;
    }
    OrderedByRun(perRun, events);
    return forall run :: run in perRun ==> perRun[run] == Count(|perRun[run]|);
  }

  method ReplayOk(events: seq<Event>) returns (ok: bool)
    ensures ok <==> Replayable(events)
  {
    var seen: map<(nat, nat), nat> := map[];
    for n := 0 to |events|
      invariant forall i :: 0 <= i < n ==> !events[i].replayDenied
      invariant forall i :: 0 <= i < n && events[i].id.Some? ==>
        (events[i].run, events[i].id.value) in seen && seen[(events[i].run, events[i].id.value)] == events[i].content
      invariant forall k :: k in seen ==> exists i :: 0 <= i < n && events[i].run == k.0 && events[i].id == Some(k.1)
    {
      var e := events[n];
      if e.replayDenied {
        return false;
      }
      if e.id.Some? {
        var k := (e.run, e.id.value);
        if k in seen && seen[k] != e.content {
          return false;
        }
        seen := seen[k := e.content];
      }
    }
    return true;
  }

  method IdempotencyOk(events: seq<Event>) returns (ok: bool)
    ensures ok <==> Idempotent(events)
  {
    var seen: map<nat, nat> := map[];
    for n := 0 to |events|
      invariant forall i :: 0 <= i < n ==> !events[i].idempotencyDenied
      invariant forall i :: 0 <= i < n && events[i].request.Some? ==>
        events[i].request.value in seen && seen[events[i].request.value] == events[i].work
      invariant forall k :: k in seen ==> exists i :: 0 <= i < n && events[i].request == Some(k)
    {
      var e := events[n];
      if e.idempotencyDenied {
        return false;
      }
      if e.request.Some? {
        if e.request.value in seen && seen[e.request.value] != e.work {
          return false;
        }
        seen := seen[e.request.value := e.work];
      }
    }
    return true;
  }

  method RecoveryOk(events: seq<Event>) returns (ok: bool)
    ensures ok <==> Recovered(events)
  {
    for n := 0 to |events|
      invariant forall i :: 0 <= i < n ==> !events[i].recoveryFailed
    {
      if events[n].recoveryFailed {
        return false;
      }
    }
    return true;
  }

  /** The scopes each run was seen in. */
  ghost predicate ScopesSeen(scopes: map<nat, set<nat>>, events: seq<Event>) {
    forall run, scope :: (run in scopes && scope in scopes[run]) <==> SeenIn(events, run, scope)
  }

  predicate SeenIn(events: seq<Event>, run: nat, scope: nat) {
    exists i :: 0 <= i < |events| && events[i].run == run && events[i].scope == scope
  }

  lemma {:induction false} SeenInOneMore(events: seq<Event>, e: Event, run: nat, scope: nat)
    ensures SeenIn(events + [e], run, scope) <==> SeenIn(events, run, scope) || (e.run == run && e.scope == scope)
  {
    var all := events + [e];
    assert all[|events|] == e;
    if SeenIn(events, run, scope) {
      var i :| 0 <= i < |events| && events[i].run == run && events[i].scope == scope;
      assert all[i] == events[i];
    }
  }

  lemma AtMostOne(s: set<nat>)
    ensures |s| <= 1 <==> forall a, b :: a in s && b in s ==> a == b
  {
    if |s| <= 1 {
      forall a, b | a in s && b in s ensures a == b {
        assert |s - {a}| == 0;
      }
    } else {
      var a :| a in s;
      assert |s - {a}| >= 1;
      var b :| b in s - {a};
    }
  }

  lemma {:induction false} OneScopeEach(scopes: map<nat, set<nat>>, events: seq<Event>)
    requires ScopesSeen(scopes, events)
    ensures (forall run :: run in scopes ==> |scopes[run]| <= 1)
       <==> forall a, b :: a in events && b in events && a.run == b.run ==> a.scope == b.scope
  {
    forall run | run in scopes
      ensures |scopes[run]| <= 1 <==> forall a, b :: a in scopes[run] && b in scopes[run] ==> a == b
    {
      AtMostOne(scopes[run]);
    }
    if forall run :: run in scopes ==> |scopes[run]| <= 1 {
      forall a, b | a in events && b in events && a.run == b.run ensures a.scope == b.scope {
        var i :| 0 <= i < |events| && events[i] == a;
        var j :| 0 <= j < |events| && events[j] == b;
        assert SeenIn(events, a.run, a.scope) && SeenIn(events, a.run, b.scope);
      }
    }
    if forall a, b :: a in events && b in events && a.run == b.run ==> a.scope == b.scope {
      forall run, s, t | run in scopes && s in scopes[run] && t in scopes[run] ensures s == t {
        assert SeenIn(events, run, s) && SeenIn(events, run, t);
        var i :| 0 <= i < |events| && events[i].run == run && events[i].scope == s;
        var j :| 0 <= j < |events| && events[j].run == run && events[j].scope == t;
      }
    }
  }

  method SecurityOk(events: seq<Event>) returns (ok: bool)
    ensures ok <==> Scoped(events)
  {
    var scopes: map<nat, set<nat>> := map[];
    for n := 0 to |events|
      invariant forall i :: 0 <= i < n ==> !events[i].accessDenied
      invariant ScopesSeen(scopes, events[..n])
    {
      var e := events[n];
      if e.accessDenied {
        return false;
      }
      forall run, scope
        ensures SeenIn(events[..n] + [e], run, scope)
          <==> SeenIn(events[..n], run, scope) || (e.run == run && e.scope == scope)
      {
        SeenInOneMore(events[..n], e, run, scope);
      }
      assert events[..n + 1] == events[..n] + [e];
      scopes := scopes[e.run := (if e.run in scopes then scopes[e.run] else {}) + {e.scope}];
    }
    assert events[..|events|] == events;
    OneScopeEach(scopes, events);
    return forall run :: run in scopes ==> |scopes[run]| <= 1;
  }

  // ---------------------------------------------------------------- the score

  ghost function Judged(events: seq<Event>): Verdict {
    Verdict(
      Ordered(events), Replayable(events), Idempotent(events), events != [] && Recovered(events),
      events != [] && Scoped(events))
  }

  function Points(v: Verdict): nat {
    (if v.ordering then 1 else 0) + (if v.replay then 1 else 0) + (if v.idempotency then 1 else 0)
    + (if v.recovery then 1 else 0) + (if v.security then 1 else 0)
  }

  /** Entries that are no events fail every metric. */
  ghost function Scored(entries: seq<Option<Event>>): Verdict {
    if AllEvents(entries) then Judged(Values(entries)) else Verdict(false, false, false, false, false)
  }

  predicate AllEvents(entries: seq<Option<Event>>) {
    forall i :: 0 <= i < |entries| ==> entries[i].Some?
  }

  function Values(entries: seq<Option<Event>>): seq<Event> {
    if entries == [] then []
    else
      var before, e := Values(entries[..|entries| - 1]), entries[|entries| - 1];
      if e.Some? then before + [e.value] else before
  }

  method ScoreWorkflow(entries: seq<Option<Event>>) returns (denominator: nat, v: Verdict, passed: nat)
    ensures denominator == |entries| && v == Scored(entries) && passed == Points(v)
  {
    denominator := |entries|;
    var events := Values(entries);
    if AllEvents(entries) {
      var ordering := OrderingOk(events);
      var replay := ReplayOk(events);
      var idempotency := IdempotencyOk(events);
      var recovery := RecoveryOk(events);
      var security := SecurityOk(events);
      v := Verdict(ordering, replay, idempotency, events != [] && recovery, events != [] && security);
    } else {
      v := Verdict(false, false, false, false, false);
    }
    passed := Points(v);
  }

  // ---------------------------------------------------------------- the order between runs does not matter

  /** The same events, run by run in the same order: one stream is an interleaving of the other's runs. */
  ghost predicate SameRuns(a: seq<Event>, b: seq<Event>) {
    forall run :: OfRun(a, run) == OfRun(b, run)
  }

  lemma {:induction false} SameEvents(a: seq<Event>, b: seq<Event>)
    requires SameRuns(a, b)
    ensures forall e :: e in a <==> e in b
    ensures a == [] <==> b == []
  {
    forall e ensures e in a <==> e in b {
      OfRunMembers(a, e.run, e);
      OfRunMembers(b, e.run, e);
    }
    assert a != [] ==> a[0] in a;
    assert b != [] ==> b[0] in b;
  }

  /** However the runs interleave, every invariant and the score come out the same. */
  lemma {:induction false} InterleavingDoesNotMatter(a: seq<Event>, b: seq<Event>)
    requires SameRuns(a, b)
    ensures Judged(a) == Judged(b)
  {
    SameEvents(a, b);
    assert forall run :: Numbered(OfRun(a, run)) <==> Numbered(OfRun(b, run));
  }

  // ---------------------------------------------------------------- the verdict in terms of the stream

  ghost function EarlierOfRun(events: seq<Event>, run: nat, upTo: nat): set<nat>
    requires upTo <= |events|
  {
    set j: nat | j < upTo && events[j].run == run
  }

  lemma {:induction false} RunSize(events: seq<Event>, run: nat)
    ensures |OfRun(events, run)| == |EarlierOfRun(events, run, |events|)|
  {
    if events == [] {
      assert EarlierOfRun(events, run, 0) == {};
    } else {
      var init, n := events[..|events| - 1], |events| - 1;
      RunSize(init, run);
      assert EarlierOfRun(init, run, n) == EarlierOfRun(events, run, n);
      OneMore(EarlierOfRun(events, run, n), EarlierOfRun(events, run, n + 1), n, events[n].run == run);
    }
  }

  /** An event is in its place when its number is one more than the number of earlier events of its run. */
  ghost predicate InPlace(events: seq<Event>, k: nat)
    requires k < |events|
  {
    events[k].sequence == Some(|EarlierOfRun(events, events[k].run, k)| + 1)
  }

  lemma {:induction false} NumberedNext(events: seq<Event>, init: seq<Event>, last: Event)
    requires events != [] && init == events[..|events| - 1] && last == events[|events| - 1]
    ensures RunsNumbered(events) <==> RunsNumbered(init) && last.sequence == Some(|OfRun(init, last.run)| + 1)
  {
    var n := |OfRun(init, last.run)|;
    assert OfRun(events, last.run) == OfRun(init, last.run) + [last];
    if RunsNumbered(events) {
      forall run ensures Numbered(OfRun(init, run)) {
        assert Numbered(OfRun(events, run));
        assert OfRun(init, run) <= OfRun(events, run);
      }
      assert Numbered(OfRun(events, last.run)) && OfRun(events, last.run)[n] == last;
    } else {
      var run :| !Numbered(OfRun(events, run));
      assert RunsNumbered(init) ==> Numbered(OfRun(init, run));
    }
  }

  /** Main result on ordering, event by event: the numbers of a run count its events in the order of the stream. */
  lemma {:induction false} OrderedInPlace(events: seq<Event>)
    ensures RunsNumbered(events) <==> forall k: nat :: k < |events| ==> InPlace(events, k)
  {
    if events != [] {
      var init, n := events[..|events| - 1], |events| - 1;
      OrderedInPlace(init);
      NumberedNext(events, init, events[n]);
      RunSize(init, events[n].run);
      forall k: nat | k <= n
        ensures EarlierOfRun(events, events[k].run, k) == EarlierOfRun(init, events[k].run, k)
      {
      }
      assert forall k: nat :: k < n ==> (InPlace(events, k) <==> InPlace(init, k));
      assert InPlace(events, n) <==> events[n].sequence == Some(|OfRun(init, events[n].run)| + 1);
    } else {
      forall run ensures Numbered(OfRun(events, run)) {
      }
    }
  }

  /** The score counts the verdicts that hold, each as one. */
  lemma {:induction false} PointsCountVerdicts(v: Verdict)
    ensures Points(Verdict(false, false, false, false, false)) == 0
    ensures Points(v.(ordering := true)) == Points(v.(ordering := false)) + 1
    ensures Points(v.(replay := true)) == Points(v.(replay := false)) + 1
    ensures Points(v.(idempotency := true)) == Points(v.(idempotency := false)) + 1
    ensures Points(v.(recovery := true)) == Points(v.(recovery := false)) + 1
    ensures Points(v.(security := true)) == Points(v.(security := false)) + 1
  {
  }

  /** Of entries that are all events the checks see each one, in order. */
  lemma {:induction false} ValuesOfEvents(entries: seq<Option<Event>>)
    requires forall e :: e in entries ==> e != None
    ensures AllEvents(entries) && |Values(entries)| == |entries|
    ensures forall i :: 0 <= i < |entries| ==> entries[i] == Some(Values(entries)[i])
  {
    if entries != [] {
      var init := entries[..|entries| - 1];
      assert forall e :: e in init ==> e in entries;
      ValuesOfEvents(init);
      assert entries[|entries| - 1] in entries;
    }
  }
}
