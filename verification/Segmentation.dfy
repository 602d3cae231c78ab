/** The structural tree of a consolidated text (evals/contract_graph/segment.py).

    A line is already classified, its note markers stripped. Nodes are named by their position,
    which is both the running number in `node_id` and the `order` of the source. */
module Segmentation {
  import opened Basics

  datatype Line =
    | Blank
    | Article(number: string, rest: string)
    | Annex(annex: Option<string>, rest: string)
    | Division
    | Clause(number: string, rest: string)
    | Point(number: string, rest: string)
    | TextLine(text: string)

  datatype Label =
    | ArticleLabel(number: string)
    | AnnexLabel(annex: Option<string>)
    | ClauseLabel(number: string)
    | PointLabel(number: string)

  datatype Node = Node(heading: Label, parent: Option<nat>, lines: seq<string>)

  /** What the loop over lines keeps: the nodes so far and the units still open. */
  datatype State = State(nodes: seq<Node>, article: Option<nat>, clause: Option<nat>, current: Option<nat>)

  const START := State([], None, None, None)

  function Body(rest: string): seq<string> {
    if rest == "" then [] else [rest]
  }

  function Open(st: State, heading: Label, parent: Option<nat>, rest: string): seq<Node> {
    st.nodes + [Node(heading, parent, Body(rest))]
  }

  function AppendLine(nodes: seq<Node>, i: nat, line: string): seq<Node>
    requires i < |nodes|
  {
    nodes[i := nodes[i].(lines := nodes[i].lines + [line])]
  }

  function Step(st: State, line: Line): State {
    var n := |st.nodes|;
    match line
    case Blank => st
    case Article(number, rest) => State(Open(st, ArticleLabel(number), None, rest), Some(n), None, Some(n))
    case Annex(annex, rest) => State(Open(st, AnnexLabel(annex), None, rest), Some(n), None, Some(n))
    case Division => st.(current := None)
    case Clause(number, rest) =>
      if st.article.None? then st  // no article: no current unit that could take the line as text
      else State(Open(st, ClauseLabel(number), st.article, rest), st.article, Some(n), Some(n))
    case Point(number, rest) =>
      if st.article.None? then st
      else
        var parent := if st.clause.Some? then st.clause else st.article;
        State(Open(st, PointLabel(number), parent, rest), st.article, st.clause, Some(n))
    case TextLine(text) =>
      if st.current.None? || st.current.value >= n then st
      else st.(nodes := AppendLine(st.nodes, st.current.value, text))
  }

  /** The state after the first `upTo` lines. */
  function After(lines: seq<Line>, upTo: nat): State
    requires upTo <= |lines|
  {
    if upTo == 0 then START else Step(After(lines, upTo - 1), lines[upTo - 1])
  }

  /** One pass over the lines, keeping the open article, clause and current unit. */
  method Segment(body: seq<Line>) returns (nodes: seq<Node>)
    ensures nodes == After(body, |body|).nodes
    ensures WellNested(nodes) && WellLabelled(nodes)
    ensures |nodes| == Units(body, |body|)
    ensures forall h: nat :: h < |body| && Opens(body, h) ==> UnitIs(body, |body|, nodes, h)
    ensures AllText(nodes) == SpokenText(body, |body|)
  {
    nodes := [];
    var article: Option<nat>, clause: Option<nat>, current: Option<nat> := None, None, None;
    for i := 0 to |body|
      invariant State(nodes, article, clause, current) == After(body, i)
      invariant current.Some? ==> current.value < |nodes|
    {
      StepKeeps(body, i);
      match body[i]
      case Blank =>
      case Article(number, rest) =>
        nodes := nodes + [Node(ArticleLabel(number), None, Body(rest))];
        article, clause, current := Some(|nodes| - 1), None, Some(|nodes| - 1);
      case Annex(annex, rest) =>
        nodes := nodes + [Node(AnnexLabel(annex), None, Body(rest))];
        article, clause, current := Some(|nodes| - 1), None, Some(|nodes| - 1);
      case Division =>
        current := None;
      case Clause(number, rest) =>
        if article.Some? {
          nodes := nodes + [Node(ClauseLabel(number), article, Body(rest))];
          clause, current := Some(|nodes| - 1), Some(|nodes| - 1);
        }
      case Point(number, rest) =>
        if article.Some? {
          nodes := nodes + [Node(PointLabel(number), if clause.Some? then clause else article, Body(rest))];
          current := Some(|nodes| - 1);
        }
      case TextLine(text) =>
        if current.Some? {
          nodes := AppendLine(nodes, current.value, text);
        }
    }
    Invariants(body, |body|);
    ToldAfter(body, |body|);
    TextIsKept(body, |body|);
  }

  // ---------------------------------------------------------------- shape of the tree

  /** Preorder numbering: a parent precedes its child, and all nodes between them are its descendants. */
  ghost predicate WellNested(nodes: seq<Node>) {
    forall i: nat :: i < |nodes| && nodes[i].parent.Some? ==>
      && nodes[i].parent.value < i
      && forall j: nat :: nodes[i].parent.value < j < i ==>
           nodes[j].parent.Some? && nodes[i].parent.value <= nodes[j].parent.value
  }

  /** Articles and annexes are roots; clauses hang from roots; points from a root or a clause. */
  ghost predicate WellLabelled(nodes: seq<Node>) {
    forall i: nat :: i < |nodes| ==> LabelFits(nodes, i)
  }

  ghost predicate LabelFits(nodes: seq<Node>, i: nat)
    requires i < |nodes|
  {
    match nodes[i].heading
    case ArticleLabel(_) => nodes[i].parent.None?
    case AnnexLabel(_) => nodes[i].parent.None?
    case ClauseLabel(_) => nodes[i].parent.Some? && nodes[i].parent.value < i && IsRoot(nodes[nodes[i].parent.value])
    case PointLabel(_) =>
      nodes[i].parent.Some? && nodes[i].parent.value < i && !nodes[nodes[i].parent.value].heading.PointLabel?
  }

  predicate IsRoot(node: Node) {
    node.heading.ArticleLabel? || node.heading.AnnexLabel?
  }

  /** Number of nodes on the way from the root. */
  ghost function Depth(nodes: seq<Node>, i: nat): nat
    requires WellNested(nodes) && i < |nodes|
  {
    if nodes[i].parent.None? then 1 else 1 + Depth(nodes, nodes[i].parent.value)
  }

  lemma {:induction false} DepthIsAtMostThree(nodes: seq<Node>, i: nat)
    requires WellNested(nodes) && WellLabelled(nodes) && i < |nodes|
    ensures Depth(nodes, i) <= 3
    ensures IsRoot(nodes[i]) <==> Depth(nodes, i) == 1
    ensures nodes[i].heading.ClauseLabel? ==> Depth(nodes, i) == 2
  {
    assert LabelFits(nodes, i);
    if nodes[i].parent.Some? {
      DepthIsAtMostThree(nodes, nodes[i].parent.value);
      assert LabelFits(nodes, nodes[i].parent.value);
    }
  }

  /** The open units sit on the rightmost path, and text goes to the last node. */
  ghost predicate OpenUnits(st: State) {
    var nodes := st.nodes;
    && (st.current.Some? ==> st.current.value + 1 == |nodes|)
    && (st.article.None? ==> nodes == [] && st.clause.None?)
    && (st.article.Some? ==>
          var a := st.article.value;
          && a < |nodes| && IsRoot(nodes[a])
          && (st.clause.None? ==>
                forall j: nat :: a < j < |nodes| ==> nodes[j].heading.PointLabel? && nodes[j].parent == Some(a))
          && (st.clause.Some? ==>
                var c := st.clause.value;
                && a < c < |nodes| && nodes[c].heading.ClauseLabel? && nodes[c].parent == Some(a)
                && (forall j: nat :: a < j < c ==> nodes[j].parent.Some? && a <= nodes[j].parent.value)
                && (forall j: nat :: c < j < |nodes| ==> nodes[j].heading.PointLabel? && nodes[j].parent == Some(c))))
  }

  lemma {:induction false} AppendKeepsTree(nodes: seq<Node>, node: Node)
    requires WellNested(nodes) && WellLabelled(nodes)
    requires node.parent.Some? ==>
      && node.parent.value < |nodes|
      && forall j: nat ::
           node.parent.value < j < |nodes| ==> nodes[j].parent.Some? && node.parent.value <= nodes[j].parent.value
    requires match node.heading
      case ArticleLabel(_) => node.parent.None?
      case AnnexLabel(_) => node.parent.None?
      case ClauseLabel(_) => node.parent.Some? && IsRoot(nodes[node.parent.value])
      case PointLabel(_) => node.parent.Some? && !nodes[node.parent.value].heading.PointLabel?
    ensures WellNested(nodes + [node]) && WellLabelled(nodes + [node])
  {
    var more := nodes + [node];
    forall i: nat | i < |more| ensures LabelFits(more, i) {
      assert i < |nodes| ==> LabelFits(nodes, i);
    }
  }

  lemma {:induction false} TextKeepsTree(nodes: seq<Node>, i: nat, line: string)
    requires WellNested(nodes) && WellLabelled(nodes) && i < |nodes|
    ensures WellNested(AppendLine(nodes, i, line)) && WellLabelled(AppendLine(nodes, i, line))
  {
    var more := AppendLine(nodes, i, line);
    assert forall k: nat :: k < |nodes| ==> more[k].parent == nodes[k].parent && more[k].heading == nodes[k].heading;
    forall k: nat | k < |more| ensures LabelFits(more, k) {
      assert LabelFits(nodes, k);
    }
  }

  ghost predicate TreeOk(st: State) {
    WellNested(st.nodes) && WellLabelled(st.nodes) && OpenUnits(st)
  }

  lemma {:induction false} RootKeepsTree(st: State, heading: Label, rest: string)
    requires TreeOk(st) && (heading.ArticleLabel? || heading.AnnexLabel?)
    ensures TreeOk(State(Open(st, heading, None, rest), Some(|st.nodes|), None, Some(|st.nodes|)))
  {
    AppendKeepsTree(st.nodes, Node(heading, None, Body(rest)));
  }

  lemma {:induction false} ClauseKeepsTree(st: State, number: string, rest: string)
    requires TreeOk(st) && st.article.Some?
    ensures
      var last := Some(|st.nodes|);
      TreeOk(State(Open(st, ClauseLabel(number), st.article, rest), st.article, last, last))
  {
    AppendKeepsTree(st.nodes, Node(ClauseLabel(number), st.article, Body(rest)));
  }

  lemma {:induction false} PointKeepsTree(st: State, number: string, rest: string)
    requires TreeOk(st) && st.article.Some?
    ensures
      var parent := if st.clause.Some? then st.clause else st.article;
      TreeOk(State(Open(st, PointLabel(number), parent, rest), st.article, st.clause, Some(|st.nodes|)))
  {
    AppendKeepsTree(st.nodes, Node(PointLabel(number), if st.clause.Some? then st.clause else st.article, Body(rest)));
  }

  lemma {:induction false} LineKeepsTree(st: State, line: string)
    requires TreeOk(st) && st.current.Some?
    ensures TreeOk(st.(nodes := AppendLine(st.nodes, st.current.value, line)))
  {
    TextKeepsTree(st.nodes, st.current.value, line);
  }

  lemma {:induction false} StepKeepsTree(st: State, line: Line)
    requires TreeOk(st)
    ensures TreeOk(Step(st, line))
  {
    match line
    case Blank =>
    case Division =>
    case Article(number, rest) => RootKeepsTree(st, ArticleLabel(number), rest);
    case Annex(annex, rest) => RootKeepsTree(st, AnnexLabel(annex), rest);
    case Clause(number, rest) => if st.article.Some? { ClauseKeepsTree(st, number, rest); }
    case Point(number, rest) => if st.article.Some? { PointKeepsTree(st, number, rest); }
    case TextLine(text) => if st.current.Some? { LineKeepsTree(st, text); }
  }

  /** Main invariant: after any line of any text the tree is well nested, labelled by level, and
      only its rightmost units are open. */
  lemma {:induction false} Invariants(lines: seq<Line>, upTo: nat)
    requires upTo <= |lines|
    ensures TreeOk(After(lines, upTo))
  {
    if upTo != 0 {
      Invariants(lines, upTo - 1);
      StepKeepsTree(After(lines, upTo - 1), lines[upTo - 1]);
    }
  }

  lemma {:induction false} StepKeeps(lines: seq<Line>, i: nat)
    requires i < |lines|
    ensures TreeOk(After(lines, i)) && TreeOk(After(lines, i + 1))
  {
    Invariants(lines, i);
    Invariants(lines, i + 1);
  }

  // ---------------------------------------------------------------- the tree in terms of the lines alone

  /** An article or annex heading stands before line k. */
  predicate Rooted(lines: seq<Line>, k: nat)
    requires k <= |lines|
  {
    exists j :: 0 <= j < k && (lines[j].Article? || lines[j].Annex?)
  }

  /** Line h is the heading of a unit: a clause or point heading is one only after an article or annex. */
  predicate Opens(lines: seq<Line>, h: nat)
    requires h < |lines|
  {
    lines[h].Article? || lines[h].Annex? || ((lines[h].Clause? || lines[h].Point?) && Rooted(lines, h))
  }

  /** How many units the first k lines open. */
  function Units(lines: seq<Line>, k: nat): nat
    requires k <= |lines|
  {
    if k == 0 then 0 else Units(lines, k - 1) + if Opens(lines, k - 1) then 1 else 0
  }

  /** The heading whose unit is open before line k: the last one, unless a chapter or section heading follows it. */
  function OpenHeading(lines: seq<Line>, k: nat): (h: Option<nat>)
    requires k <= |lines|
    ensures h.Some? ==> h.value < k && Opens(lines, h.value)
  {
    if k == 0 || lines[k - 1].Division? then None
    else if Opens(lines, k - 1) then Some(k - 1)
    else OpenHeading(lines, k - 1)
  }

  /** The last article or annex heading before line k. */
  function RootHeading(lines: seq<Line>, k: nat): (h: Option<nat>)
    requires k <= |lines|
    ensures h.Some? ==> h.value < k && Opens(lines, h.value)
    ensures h.Some? <==> Rooted(lines, k)
  {
    if k == 0 then None
    else if lines[k - 1].Article? || lines[k - 1].Annex? then Some(k - 1)
    else RootHeading(lines, k - 1)
  }

  /** The last clause heading before line k, if its article still stands. */
  function ClauseHeading(lines: seq<Line>, k: nat): (h: Option<nat>)
    requires k <= |lines|
    ensures h.Some? ==> h.value < k && Opens(lines, h.value)
  {
    if k == 0 || lines[k - 1].Article? || lines[k - 1].Annex? then None
    else if lines[k - 1].Clause? && Rooted(lines, k - 1) then Some(k - 1)
    else ClauseHeading(lines, k - 1)
  }

  function LabelOf(line: Line): Label
    requires line.Article? || line.Annex? || line.Clause? || line.Point?
  {
    match line
    case Article(number, _) => ArticleLabel(number)
    case Annex(annex, _) => AnnexLabel(annex)
    case Clause(number, _) => ClauseLabel(number)
    case Point(number, _) => PointLabel(number)
  }

  /** The heading of the unit around the one that line h opens. */
  function ParentHeading(lines: seq<Line>, h: nat): (p: Option<nat>)
    requires h < |lines|
    ensures p.Some? ==> p.value < h && Opens(lines, p.value)
  {
    if lines[h].Clause? then RootHeading(lines, h)
    else if lines[h].Point? then
      if ClauseHeading(lines, h).Some? then ClauseHeading(lines, h) else RootHeading(lines, h)
    else None
  }

  /** What the first k lines say in the unit that line h opens: the rest of the heading and the text lines under it. */
  function TextUnder(lines: seq<Line>, h: nat, k: nat): seq<string>
    requires h < k <= |lines| && Opens(lines, h)
  {
    if k == h + 1 then (if lines[h].rest == "" then [] else [lines[h].rest])
    else
      TextUnder(lines, h, k - 1)
      + if lines[k - 1].TextLine? && OpenHeading(lines, k - 1) == Some(h) then [lines[k - 1].text] else []
  }

  ghost function NumberOf(lines: seq<Line>, h: Option<nat>): Option<nat>
    requires h.Some? ==> h.value <= |lines|
  {
    if h.None? then None else Some(Units(lines, h.value))
  }

  ghost predicate UnitIs(lines: seq<Line>, k: nat, nodes: seq<Node>, h: nat)
    requires h < k <= |lines| && Opens(lines, h)
  {
    && Units(lines, h) < |nodes|
    && nodes[Units(lines, h)]
       == Node(LabelOf(lines[h]), NumberOf(lines, ParentHeading(lines, h)), TextUnder(lines, h, k))
  }

  /** What the loop keeps, told from the lines alone. */
  ghost predicate Told(lines: seq<Line>, k: nat, st: State)
    requires k <= |lines|
  {
    && |st.nodes| == Units(lines, k)
    && st.article == NumberOf(lines, RootHeading(lines, k))
    && st.clause == NumberOf(lines, ClauseHeading(lines, k))
    && st.current == NumberOf(lines, OpenHeading(lines, k))
    && forall h: nat :: h < k && Opens(lines, h) ==> UnitIs(lines, k, st.nodes, h)
  }

  lemma {:induction false} UnitsGrow(lines: seq<Line>, h: nat, k: nat)
    requires h < k <= |lines| && Opens(lines, h)
    ensures Units(lines, h) < Units(lines, k)
    ensures forall j: nat :: j < h ==> Units(lines, j) <= Units(lines, h)
  {
    if h + 1 < k {
      UnitsGrow(lines, h, k - 1);
    }
    UnitsMonotone(lines, h);
  }

  lemma {:induction false} UnitsMonotone(lines: seq<Line>, k: nat)
    requires k <= |lines|
    ensures forall j: nat :: j < k ==> Units(lines, j) <= Units(lines, k)
  {
    if k > 0 {
      UnitsMonotone(lines, k - 1);
    }
  }

  lemma {:induction false} DistinctUnits(lines: seq<Line>, a: nat, b: nat)
    requires a < |lines| && b < |lines| && Opens(lines, a) && Opens(lines, b) && a != b
    ensures Units(lines, a) != Units(lines, b)
  {
    if a < b {
      UnitsGrow(lines, a, b);
    } else {
      UnitsGrow(lines, b, a);
    }
  }

  lemma {:induction false} ToldHeading(lines: seq<Line>, k: nat, st: State)
    requires k < |lines| && Told(lines, k, st) && Opens(lines, k)
    ensures Told(lines, k + 1, Step(st, lines[k]))
  {
    var next := Step(st, lines[k]);
    forall h: nat | h < k + 1 && Opens(lines, h) ensures UnitIs(lines, k + 1, next.nodes, h) {
      if h < k {
        assert UnitIs(lines, k, st.nodes, h);
      }
    }
  }

  lemma {:induction false} ToldText(lines: seq<Line>, k: nat, st: State)
    requires k < |lines| && Told(lines, k, st) && lines[k].TextLine?
    ensures Told(lines, k + 1, Step(st, lines[k]))
  {
    var next, open := Step(st, lines[k]), OpenHeading(lines, k);
    if open.Some? {
      UnitsGrow(lines, open.value, k);
    }
    forall h: nat | h < k + 1 && Opens(lines, h) ensures UnitIs(lines, k + 1, next.nodes, h) {
      assert UnitIs(lines, k, st.nodes, h);
      if open.Some? && open.value != h {
        DistinctUnits(lines, open.value, h);
      }
    }
  }

  lemma {:induction false} ToldOther(lines: seq<Line>, k: nat, st: State)
    requires k < |lines| && Told(lines, k, st) && !lines[k].TextLine? && !Opens(lines, k)
    ensures Told(lines, k + 1, Step(st, lines[k]))
  {
    var next := Step(st, lines[k]);
    forall h: nat | h < k + 1 && Opens(lines, h) ensures UnitIs(lines, k + 1, next.nodes, h) {
      assert UnitIs(lines, k, st.nodes, h);
    }
  }

  lemma {:induction false} ToldAfter(lines: seq<Line>, k: nat)
    requires k <= |lines|
    ensures Told(lines, k, After(lines, k))
  {
    if k > 0 {
      var st := After(lines, k - 1);
      ToldAfter(lines, k - 1);
      if Opens(lines, k - 1) {
        ToldHeading(lines, k - 1, st);
      } else if lines[k - 1].TextLine? {
        ToldText(lines, k - 1, st);
      } else {
        ToldOther(lines, k - 1, st);
      }
    }
  }


  /** Main result: the tree in terms of the lines alone. Each heading line that opens a unit has its node, in text
      order: the label of that line, the node of the heading around it as parent, and as text the rest of the heading
      and the text lines up to the next heading. There are no other nodes. */
  lemma {:induction false} TreeOfLines(lines: seq<Line>, h: nat)
    requires h < |lines| && Opens(lines, h)
    ensures
      var nodes := After(lines, |lines|).nodes;
      && |nodes| == Units(lines, |lines|) && Units(lines, h) < |nodes|
      && nodes[Units(lines, h)]
         == Node(LabelOf(lines[h]), NumberOf(lines, ParentHeading(lines, h)), TextUnder(lines, h, |lines|))
  {
    ToldAfter(lines, |lines|);
    assert UnitIs(lines, |lines|, After(lines, |lines|).nodes, h);
  }

  // ---------------------------------------------------------------- no text is lost

  /** The text of the first `upTo` nodes, in node order. */
  function TextOfNodes(nodes: seq<Node>, upTo: nat): seq<string>
    requires upTo <= |nodes|
  {
    if upTo == 0 then [] else TextOfNodes(nodes, upTo - 1) + nodes[upTo - 1].lines
  }

  function AllText(nodes: seq<Node>): seq<string> {
    TextOfNodes(nodes, |nodes|)
  }

  /** What one line says in a unit. */
  function SaidBy(lines: seq<Line>, k: nat): seq<string>
    requires k < |lines|
  {
    if Opens(lines, k) then (if lines[k].rest == "" then [] else [lines[k].rest])
    else if lines[k].TextLine? && OpenHeading(lines, k).Some? then [lines[k].text]
    else []
  }

  /** The non-empty rests of unit headings and the text lines that stand in an open unit, in text order. */
  function SpokenText(lines: seq<Line>, k: nat): seq<string>
    requires k <= |lines|
  {
    if k == 0 then []
    else SpokenText(lines, k - 1) + SaidBy(lines, k - 1)
  }

  lemma {:induction false} SameText(a: seq<Node>, b: seq<Node>, upTo: nat)
    requires upTo <= |a| && upTo <= |b| && forall i :: 0 <= i < upTo ==> a[i].lines == b[i].lines
    ensures TextOfNodes(a, upTo) == TextOfNodes(b, upTo)
  {
    if upTo > 0 {
      SameText(a, b, upTo - 1);
    }
  }

  lemma {:induction false} AllTextAppend(nodes: seq<Node>, node: Node)
    ensures AllText(nodes + [node]) == AllText(nodes) + node.lines
  {
    SameText(nodes + [node], nodes, |nodes|);
  }

  lemma {:induction false} AllTextOfLast(nodes: seq<Node>, line: string)
    requires nodes != []
    ensures AllText(AppendLine(nodes, |nodes| - 1, line)) == AllText(nodes) + [line]
  {
    var last := |nodes| - 1;
    SameText(AppendLine(nodes, last, line), nodes, last);
    ConcatAssoc(TextOfNodes(nodes, last), nodes[last].lines, [line]);
  }

  /** Which units are open, told from the lines; text goes to the last node. */
  ghost predicate OpenAsTold(lines: seq<Line>, k: nat, st: State)
    requires k <= |lines|
  {
    && (st.article.Some? <==> Rooted(lines, k))
    && (st.current.Some? <==> OpenHeading(lines, k).Some?)
    && (st.current.Some? ==> st.current.value + 1 == |st.nodes|)
  }

  lemma {:induction false} OpenAfter(lines: seq<Line>, k: nat)
    requires k <= |lines|
    ensures OpenAsTold(lines, k, After(lines, k))
  {
    ToldAfter(lines, k);
    Invariants(lines, k);
  }

  lemma {:induction false} TextOfHeading(lines: seq<Line>, k: nat, st: State)
    requires k < |lines| && Opens(lines, k) && OpenAsTold(lines, k, st)
    ensures AllText(Step(st, lines[k]).nodes) == AllText(st.nodes) + SaidBy(lines, k)
  {
    var nodes := Step(st, lines[k]).nodes;
    var node := nodes[|st.nodes|];
    assert nodes == st.nodes + [node] && node.lines == SaidBy(lines, k);
    AllTextAppend(st.nodes, node);
  }

  lemma {:induction false} TextOfStep(lines: seq<Line>, k: nat, st: State, next: State)
    requires k < |lines| && OpenAsTold(lines, k, st) && next == Step(st, lines[k])
    ensures AllText(next.nodes) == AllText(st.nodes) + SaidBy(lines, k)
  {
    if Opens(lines, k) {
      TextOfHeading(lines, k, st);
    } else if lines[k].TextLine? && st.current.Some? {
      AllTextOfLast(st.nodes, lines[k].text);
    } else {
      ConcatEmpty(AllText(st.nodes));
    }
  }

  /** No text is lost, repeated or moved: all nodes together hold what the lines say in units, in text order. */
  lemma {:induction false} TextIsKept(lines: seq<Line>, k: nat)
    requires k <= |lines|
    ensures AllText(After(lines, k).nodes) == SpokenText(lines, k)
  {
    if k > 0 {
      TextIsKept(lines, k - 1);
      OpenAfter(lines, k - 1);
      TextOfStep(lines, k - 1, After(lines, k - 1), After(lines, k));
    }
  }
}
