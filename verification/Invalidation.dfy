/** Staleness of derived artifacts after a review edit (ai-service/app/contracts/canonical.py). */
module Invalidation {
  import opened Basics

  datatype Id = Id(text: string)

  /** The part of an artifact that invalidation reads. */
  datatype Node = Node(kind: string, dependsOn: seq<Id>)
  type Graph = map<Id, Node>

  const INPUT := "input"

  // ---------------------------------------------------------------- reachability

  /** A chain of dependants: each artifact depends on the one before it, the first is a seed. */
  ghost predicate IsChain(g: Graph, seeds: set<Id>, chain: seq<Id>) {
    && chain != []
    && chain[0] in seeds
    && forall i :: 0 < i < |chain| ==> chain[i] in g && chain[i - 1] in g[chain[i]].dependsOn
  }

  ghost predicate Reachable(g: Graph, seeds: set<Id>, id: Id) {
    exists chain :: IsChain(g, seeds, chain) && chain[|chain| - 1] == id
  }

  /** The derived artifacts that an edit of the seeds makes stale. */
  ghost function Affected(g: Graph, seeds: set<Id>): set<Id> {
    set id | id in g && g[id].kind != INPUT && Reachable(g, seeds, id)
  }

  lemma {:induction false} SeedIsReachable(g: Graph, seeds: set<Id>, id: Id)
    requires id in seeds
    ensures Reachable(g, seeds, id)
  {
    assert IsChain(g, seeds, [id]);
  }

  lemma {:induction false} DependantIsReachable(g: Graph, seeds: set<Id>, from: Id, id: Id)
    requires Reachable(g, seeds, from) && id in g && from in g[id].dependsOn
    ensures Reachable(g, seeds, id)
  {
    var chain :| IsChain(g, seeds, chain) && chain[|chain| - 1] == from;
    assert IsChain(g, seeds, chain + [id]);
  }

  /** The artifact is in `stale`, or depends on nothing there. */
  ghost predicate Settled(g: Graph, stale: set<Id>, id: Id)
    requires id in g
  {
    id in stale || forall dep :: dep in g[id].dependsOn ==> dep !in stale
  }

  ghost predicate Closed(g: Graph, stale: set<Id>) {
    forall id :: id in g ==> Settled(g, stale, id)
  }

  /** A closed set with the seeds holds all that is reachable. */
  lemma {:induction false} ClosedHoldsReachable(g: Graph, seeds: set<Id>, stale: set<Id>, chain: seq<Id>)
    requires seeds <= stale && Closed(g, stale) && IsChain(g, seeds, chain)
    ensures chain[|chain| - 1] in stale
  {
    if |chain| > 1 {
      var shorter := chain[..|chain| - 1];
      assert IsChain(g, seeds, shorter);
      ClosedHoldsReachable(g, seeds, stale, shorter);
      assert Settled(g, stale, chain[|chain| - 1]);
    }
  }

  /** The reachable ids, as the loop computes them. */
  ghost predicate IsClosure(g: Graph, seeds: set<Id>, stale: set<Id>) {
    && seeds <= stale && Closed(g, stale)
    && forall id :: id in stale ==> Reachable(g, seeds, id)
  }

  lemma {:induction false} ClosureIsReachability(g: Graph, seeds: set<Id>, stale: set<Id>, id: Id)
    requires IsClosure(g, seeds, stale)
    ensures id in stale <==> Reachable(g, seeds, id)
  {
    if Reachable(g, seeds, id) {
      var chain :| IsChain(g, seeds, chain) && chain[|chain| - 1] == id;
      ClosedHoldsReachable(g, seeds, stale, chain);
    }
  }

  lemma {:induction false} ClosureGivesAffected(g: Graph, seeds: set<Id>, stale: set<Id>)
    requires IsClosure(g, seeds, stale)
    ensures (set id | id in stale && id in g && g[id].kind != INPUT) == Affected(g, seeds)
  {
    forall id ensures id in stale <==> Reachable(g, seeds, id) {
      ClosureIsReachability(g, seeds, stale, id);
    }
  }

  // ---------------------------------------------------------------- edit targets

  datatype EditKind = Annotation | Boundary | Fact | Relation | Unsupported(name: string)
  datatype EditImpact = UnsupportedKind | Impact(stale: set<Id>)

  function KindName(kind: EditKind): string {
    match kind
    case Annotation => "annotation"
    case Boundary => "boundary"
    case Fact => "fact"
    case Relation => "relation"
    case Unsupported(name) => name
  }

  function TargetOf(kind: EditKind, id: string): Id {
    Id(KindName(kind) + ":" + id)
  }

  predicate Invalidates(kind: EditKind) {
    kind.Boundary? || kind.Fact? || kind.Relation?
  }

  /** The graph with the edited target filed in it. */
  ghost function WithTarget(g: Graph, kind: EditKind, id: string): Graph {
    var target := TargetOf(kind, id);
    if target in g then g else g[target := Node(KindName(kind), [])]
  }

  // ---------------------------------------------------------------- the graph object

  class Artifact {
    const id: Id
    const kind: string
    const dependsOn: seq<Id>
    var stale: bool

    constructor (id: Id, kind: string)
      ensures this.id == id && this.kind == kind && dependsOn == [] && !stale
    {
      this.id, this.kind, this.dependsOn, this.stale := id, kind, [], false;
    }
  }

  class DependencyGraph {
    var artifacts: map<Id, Artifact>

    /** Artifacts are filed under their own id, so no two keys share an object. */
    ghost predicate Valid()
      reads this
    {
      forall id :: id in artifacts ==> artifacts[id].id == id
    }

    ghost function Shape(): Graph
      reads this
    {
      map id | id in artifacts :: Node(artifacts[id].kind, artifacts[id].dependsOn)
    }

    ghost function Objects(): set<Artifact>
      reads this
    {
      set id | id in artifacts :: artifacts[id]
    }

    ghost function Flagged(): set<Id>
      reads this, Objects()
    {
      set id | id in artifacts && artifacts[id].stale
    }

    /** Files a target that is not in the graph yet, on its own and not stale. */
    method File(kind: EditKind, id: string)
      requires Valid()
      modifies this
      ensures Valid() && fresh(Objects() - old(Objects()))
      ensures Shape() == WithTarget(old(Shape()), kind, id)
      ensures Flagged() == old(Flagged())
    {
      var target := TargetOf(kind, id);
      if target !in artifacts {
        var filed := new Artifact(target, KindName(kind));
        artifacts := artifacts[target := filed];
      }
    }

    /** One pass over the artifacts, in any order; ids added early count for those visited later. */
    method Pass(seeds: set<Id>, before: set<Id>) returns (stale: set<Id>, changed: bool)
      requires Valid()
      requires forall id :: id in before ==> Reachable(Shape(), seeds, id)
      ensures before <= stale
      ensures forall id :: id in stale ==> Reachable(Shape(), seeds, id)
      ensures if changed then exists id :: id in stale && id !in before && id in Shape()
              else stale == before && Closed(Shape(), stale)
    {
      ghost var g := Shape();
      stale, changed := before, false;
      var todo := artifacts.Keys;
      while todo != {}
        invariant todo <= artifacts.Keys && before <= stale
        invariant forall id :: id in stale ==> Reachable(g, seeds, id)
        invariant if changed then exists id :: id in stale && id !in before && id in g else stale == before
        invariant !changed ==> forall id :: id in g && id !in todo ==> Settled(g, stale, id)
      {
        var id :| id in todo;
        todo := todo - {id};
        var artifact := artifacts[id];
        if artifact.id !in stale && exists dep :: dep in artifact.dependsOn && dep in stale {
          ghost var dep :| dep in artifact.dependsOn && dep in stale;
          DependantIsReachable(g, seeds, dep, id);
          stale := stale + {artifact.id};
          changed := true;
        }
      }
    }

    /** Repeats passes until one changes nothing. */
    method Close(seeds: set<Id>) returns (stale: set<Id>)
      requires Valid()
      ensures IsClosure(Shape(), seeds, stale)
    {
      stale := seeds;
      forall id | id in stale ensures Reachable(Shape(), seeds, id) {
        SeedIsReachable(Shape(), seeds, id);
      }
      var changed := true;
      while changed
        invariant seeds <= stale
        invariant forall id :: id in stale ==> Reachable(Shape(), seeds, id)
        invariant !changed ==> Closed(Shape(), stale)
        decreases Shape().Keys - stale, changed
      {
        stale, changed := Pass(seeds, stale);
      }
    }

    method Flag(ids: set<Id>)
      requires Valid()
      modifies Objects()
      ensures artifacts == old(artifacts)
      ensures forall id :: id in artifacts ==> artifacts[id].stale == (old(artifacts[id].stale) || id in ids)
      ensures Flagged() == old(Flagged()) + (ids * artifacts.Keys)
    {
      var todo := ids;
      while todo != {}
        invariant todo <= ids
        invariant artifacts == old(artifacts)
        invariant forall id :: id in artifacts ==>
          artifacts[id].stale == (old(artifacts[id].stale) || (id in ids && id !in todo))
      {
        var id :| id in todo;
        todo := todo - {id};
        if id in artifacts {
          artifacts[id].stale := true;
        }
      }
    }

    /** The members of a closure that are filed and not raw input. */
    method Derived(ghost seeds: set<Id>, stale: set<Id>) returns (ids: set<Id>)
      requires IsClosure(Shape(), seeds, stale)
      ensures ids == Affected(Shape(), seeds)
    {
      ids := set id | id in stale && id in artifacts && artifacts[id].kind != INPUT;
      ClosureGivesAffected(Shape(), seeds, stale);
    }

    /** Flags the derived artifacts that can be reached from the seeds, and no others. */
    method Invalidate(seeds: set<Id>) returns (ids: set<Id>)
      requires Valid()
      modifies Objects()
      ensures artifacts == old(artifacts)
      ensures ids == Affected(Shape(), seeds)
      ensures Flagged() == old(Flagged()) + ids
    {
      var stale := Close(seeds);
      ids := Derived(seeds, stale);
      Flag(ids);
    }
  }

  // ---------------------------------------------------------------- edits

  lemma {:induction false} ReachableSeedAddsNothing(g: Graph, seeds: set<Id>, extra: Id, chain: seq<Id>)
    requires Reachable(g, seeds, extra) && IsChain(g, {extra}, chain)
    ensures Reachable(g, seeds, chain[|chain| - 1])
  {
    if |chain| > 1 {
      var shorter := chain[..|chain| - 1];
      assert IsChain(g, {extra}, shorter);
      ReachableSeedAddsNothing(g, seeds, extra, shorter);
      DependantIsReachable(g, seeds, shorter[|shorter| - 1], chain[|chain| - 1]);
    }
  }

  lemma {:induction false} AffectedUnion(g: Graph, a: set<Id>, b: set<Id>)
    ensures Affected(g, a + b) == Affected(g, a) + Affected(g, b)
  {
  }

  lemma {:induction false} AffectedByReachableSeed(g: Graph, seeds: set<Id>, extra: Id)
    requires Reachable(g, seeds, extra)
    ensures Affected(g, seeds + {extra}) == Affected(g, seeds)
  {
    AffectedUnion(g, seeds, {extra});
    forall id | id in Affected(g, {extra}) ensures id in Affected(g, seeds) {
      var chain :| IsChain(g, {extra}, chain) && chain[|chain| - 1] == id;
      ReachableSeedAddsNothing(g, seeds, extra, chain);
    }
  }

  class AI2Run {
    const generation: Id
    const dependencies: DependencyGraph

    constructor (snapshot: string, dependencies: DependencyGraph)
      ensures generation == Id("generation:" + snapshot) && this.dependencies == dependencies
    {
      this.generation := Id("generation:" + snapshot);
      this.dependencies := dependencies;
    }

    /** Files the edited target and flags what depends on it or on the current generation. */
    method MarkEdit(kind: EditKind, id: string) returns (r: EditImpact)
      requires dependencies.Valid()
      modifies dependencies, dependencies.Objects()
      ensures dependencies.Valid()
      ensures r.UnsupportedKind? <==> kind.Unsupported?
      ensures !Invalidates(kind) ==>
        dependencies.artifacts == old(dependencies.artifacts) && dependencies.Flagged() == old(dependencies.Flagged())
      ensures kind.Annotation? ==> r == Impact({})
      ensures Invalidates(kind) ==>
        && dependencies.Shape() == WithTarget(old(dependencies.Shape()), kind, id)
        && r.Impact?
        && r.stale == Affected(dependencies.Shape(), {TargetOf(kind, id), generation})
        && dependencies.Flagged() == old(dependencies.Flagged()) + r.stale
    {
      if kind.Annotation? {
        return Impact({});
      }
      if kind.Unsupported? {
        return UnsupportedKind;
      }
      dependencies.File(kind, id);
      var stale := InvalidateTarget(TargetOf(kind, id));
      return Impact(stale);
    }

    /** A target that nothing has built on yet still makes the current generation stale. */
    method InvalidateTarget(target: Id) returns (stale: set<Id>)
      requires dependencies.Valid()
      modifies dependencies.Objects()
      ensures dependencies.artifacts == old(dependencies.artifacts)
      ensures stale == Affected(dependencies.Shape(), {target, generation})
      ensures dependencies.Flagged() == old(dependencies.Flagged()) + stale
    {
      ghost var g := dependencies.Shape();
      assert {target} + {generation} == {target, generation};
      stale := dependencies.Invalidate({target});
      if generation !in stale {
        AffectedUnion(g, {target}, {generation});
        stale := dependencies.Invalidate({target, generation});
      } else {
        AffectedByReachableSeed(g, {target}, generation);
      }
    }
  }

  // ---------------------------------------------------------------- whole runs of edits

  datatype Edit = Edit(kind: EditKind, id: string)
  datatype RunState = RunState(g: Graph, flagged: set<Id>)

  /** One call of MarkEdit on the abstract state. */
  ghost function AfterEdit(st: RunState, generation: Id, e: Edit): RunState {
    if !Invalidates(e.kind) then st
    else
      var g := WithTarget(st.g, e.kind, e.id);
      RunState(g, st.flagged + Affected(g, {TargetOf(e.kind, e.id), generation}))
  }

  ghost function AfterEdits(st: RunState, generation: Id, edits: seq<Edit>): RunState {
    if edits == [] then st
    else AfterEdit(AfterEdits(st, generation, edits[..|edits| - 1]), generation, edits[|edits| - 1])
  }

  /** The targets of the invalidating edits, and the generation once there is one. */
  ghost function SeedsOf(generation: Id, edits: seq<Edit>): set<Id> {
    if edits == [] then {}
    else
      var before, e := SeedsOf(generation, edits[..|edits| - 1]), edits[|edits| - 1];
      if Invalidates(e.kind) then before + {TargetOf(e.kind, e.id), generation} else before
  }

  /** Filing a new target, which depends on nothing, changes no reachability. */
  lemma {:induction false} TargetChangesNoChain(g: Graph, target: Id, kind: string, seeds: set<Id>, id: Id)
    requires target !in g
    ensures Reachable(g[target := Node(kind, [])], seeds, id) <==> Reachable(g, seeds, id)
  {
    var more := g[target := Node(kind, [])];
    if Reachable(more, seeds, id) {
      var chain :| IsChain(more, seeds, chain) && chain[|chain| - 1] == id;
      forall i | 0 < i < |chain| ensures chain[i] in g && chain[i - 1] in g[chain[i]].dependsOn {
        assert chain[i] in more && chain[i - 1] in more[chain[i]].dependsOn;
      }
      assert IsChain(g, seeds, chain);
    }
    if Reachable(g, seeds, id) {
      var chain :| IsChain(g, seeds, chain) && chain[|chain| - 1] == id;
      assert IsChain(more, seeds, chain);
    }
  }

  lemma {:induction false} AffectedAfterFiling(g: Graph, e: Edit, seeds: set<Id>)
    requires Invalidates(e.kind)
    ensures
      var target, more := TargetOf(e.kind, e.id), WithTarget(g, e.kind, e.id);
      Affected(g, seeds) + Affected(more, {target}) == Affected(more, seeds) + Affected(more, {target})
  {
    var target, more := TargetOf(e.kind, e.id), WithTarget(g, e.kind, e.id);
    if target !in g {
      SeedIsReachable(more, {target}, target);
      assert KindName(e.kind) != INPUT by {
        assert KindName(e.kind)[0] != INPUT[0];
      }
      forall id ensures Reachable(more, seeds, id) <==> Reachable(g, seeds, id) {
        TargetChangesNoChain(g, target, KindName(e.kind), seeds, id);
      }
    }
  }

  /** Main result, over every sequence of edits: the flags are the initial ones plus the derived part
      of everything reachable from the edited targets and the current generation. */
  lemma {:induction false} EditsFlagExactlyTheReachable(g: Graph, flagged: set<Id>, generation: Id, edits: seq<Edit>)
    ensures
      var st := AfterEdits(RunState(g, flagged), generation, edits);
      st.flagged == flagged + Affected(st.g, SeedsOf(generation, edits))
  {
    if edits == [] {
      assert forall chain: seq<Id> :: !IsChain(g, {}, chain);
    } else {
      var e, earlier := edits[|edits| - 1], edits[..|edits| - 1];
      EditsFlagExactlyTheReachable(g, flagged, generation, earlier);
      if Invalidates(e.kind) {
        var before, seeds := AfterEdits(RunState(g, flagged), generation, earlier), SeedsOf(generation, earlier);
        var target, more := TargetOf(e.kind, e.id), WithTarget(before.g, e.kind, e.id);
        AffectedAfterFiling(before.g, e, seeds);
        AffectedUnion(more, seeds, {target, generation});
        AffectedUnion(more, {target}, {generation});
        assert {target} + {generation} == {target, generation};
      }
    }
  }

  // ---------------------------------------------------------------- targets in terms of their text

  /** What an edit names as its target. */
  lemma {:induction false} TextOfTarget(id: string)
    ensures TargetOf(Boundary, id).text == "boundary:" + id
    ensures TargetOf(Fact, id).text == "fact:" + id
    ensures TargetOf(Relation, id).text == "relation:" + id
  {
  }

  /** Edits that invalidate have different targets exactly when they differ in kind or artifact. */
  lemma {:induction false} TargetsDiffer(kind: EditKind, id: string, other: EditKind, otherId: string)
    requires Invalidates(kind) && Invalidates(other)
    ensures TargetOf(kind, id) == TargetOf(other, otherId) <==> kind == other && id == otherId
  {
    TextOfTarget(id);
    TextOfTarget(otherId);
    var a, b := TargetOf(kind, id).text, TargetOf(other, otherId).text;
    assert a == KindName(kind) + ":" + id && b == KindName(other) + ":" + otherId;
    if a == b {
      assert a[0] == b[0];
      assert kind == other;
      assert id == a[|KindName(kind)| + 1..] && otherId == b[|KindName(other)| + 1..];
    }
  }

  /** Which edits invalidate, and what filing the target adds to the graph. */
  lemma {:induction false} FiledTarget(g: Graph, kind: EditKind, id: string)
    ensures Invalidates(kind) <==> !kind.Annotation? && !kind.Unsupported?
    ensures var target, filed := TargetOf(kind, id), WithTarget(g, kind, id);
      && filed.Keys == g.Keys + {target}
      && (forall x :: x in g ==> filed[x] == g[x])
      && (target !in g ==> filed[target].dependsOn == [])
  {
  }

  /** The artifacts an edit makes stale: those of another kind than "input" at the end of a chain that starts with a
      seed and goes on from each artifact to one that depends on it. */
  lemma {:induction false} AffectedArtifacts(g: Graph, seeds: set<Id>, id: Id)
    ensures id in Affected(g, seeds) <==>
      && id in g && g[id].kind != "input"
      && exists chain: seq<Id> :: IsChain(g, seeds, chain) && chain[|chain| - 1] == id
  {
  }
}
