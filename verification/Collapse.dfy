/** Folding the tree to its roots (evals/contract_graph/segment.py, `collapse_to_articles`).

    The children of a unit are visited depth first; on a well-nested tree that is document order. */
module Collapse {
  import opened Basics
  import opened Segmentation
  import opened Strings

  // ---------------------------------------------------------------- depth-first order

  ghost predicate ParentsPrecede(nodes: seq<Node>) {
    forall i: nat :: i < |nodes| && nodes[i].parent.Some? ==> nodes[i].parent.value < i
  }

  /** The nodes with a given parent among the first `upTo`, in order. */
  function ChildrenOf(nodes: seq<Node>, parent: Option<nat>, upTo: nat): (kids: seq<nat>)
    requires upTo <= |nodes|
    ensures forall c :: 0 <= c < |kids| ==> kids[c] < upTo && nodes[kids[c]].parent == parent
  {
    if upTo == 0 then []
    else if nodes[upTo - 1].parent == parent then ChildrenOf(nodes, parent, upTo - 1) + [upTo - 1]
    else ChildrenOf(nodes, parent, upTo - 1)
  }

  ghost predicate Below(nodes: seq<Node>, i: nat, kids: seq<nat>) {
    forall c :: 0 <= c < |kids| ==> i < kids[c] < |nodes|
  }

  /** All descendants of a node, depth first. */
  ghost function Descendants(nodes: seq<Node>, i: nat): (out: seq<nat>)
    requires ParentsPrecede(nodes) && i < |nodes|
    ensures Below(nodes, i, out)
    decreases |nodes| - i, 1, 0
  {
    Walk(nodes, i, ChildrenOf(nodes, Some(i), |nodes|))
  }

  ghost function Walk(nodes: seq<Node>, i: nat, kids: seq<nat>): (out: seq<nat>)
    requires ParentsPrecede(nodes) && i < |nodes| && Below(nodes, i, kids)
    ensures Below(nodes, i, out)
    decreases |nodes| - i, 0, |kids|
  {
    if kids == [] then []
    else
      var last := kids[|kids| - 1];
      Walk(nodes, i, kids[..|kids| - 1]) + [last] + Descendants(nodes, last)
  }

  /** The numbers from `a` up to `b`. */
  function Span(a: nat, b: nat): seq<nat>
    requires a <= b
  {
    seq(b - a, k requires 0 <= k => a + k)
  }

  /** First node from `j` on that is not below node i. */
  function End(nodes: seq<Node>, i: nat, j: nat): (e: nat)
    requires i < j <= |nodes|
    ensures j <= e <= |nodes|
    ensures forall k :: j <= k < e ==> nodes[k].parent.Some? && i <= nodes[k].parent.value
    ensures e < |nodes| ==> nodes[e].parent.None? || nodes[e].parent.value < i
    decreases |nodes| - j
  {
    if j == |nodes| || nodes[j].parent.None? || nodes[j].parent.value < i then j else End(nodes, i, j + 1)
  }

  /** A boundary of node i's children: its own end, or the start of one of them. */
  ghost predicate Boundary(nodes: seq<Node>, i: nat, e: nat)
    requires i < |nodes|
  {
    && i < e <= End(nodes, i, i + 1)
    && (e == End(nodes, i, i + 1) || nodes[e].parent == Some(i))
  }

  lemma {:induction false} LastBefore(nodes: seq<Node>, parent: Option<nat>, first: nat, e: nat) returns (k: nat)
    requires first < e <= |nodes| && nodes[first].parent == parent
    ensures first <= k < e && nodes[k].parent == parent
    ensures forall j :: k < j < e ==> nodes[j].parent != parent
    decreases e
  {
    if nodes[e - 1].parent == parent {
      k := e - 1;
    } else {
      k := LastBefore(nodes, parent, first, e - 1);
    }
  }

  lemma {:induction false} FirstChild(nodes: seq<Node>, i: nat, e: nat)
    requires WellNested(nodes) && i < |nodes| && Boundary(nodes, i, e) && e > i + 1
    ensures nodes[i + 1].parent == Some(i)
  {
  }

  lemma {:induction false} LastChild(nodes: seq<Node>, i: nat, e: nat) returns (k: nat)
    requires WellNested(nodes) && i < |nodes| && Boundary(nodes, i, e) && e > i + 1
    ensures i < k < e && nodes[k].parent == Some(i) && Boundary(nodes, i, k)
    ensures End(nodes, k, k + 1) == e
    ensures ChildrenOf(nodes, Some(i), e) == ChildrenOf(nodes, Some(i), k) + [k]
  {
    FirstChild(nodes, i, e);
    k := LastBefore(nodes, Some(i), i + 1, e);
    EndOfLastChild(nodes, i, k, e);
    NoChildrenBetween(nodes, Some(i), k + 1, e);
  }

  lemma {:induction false} EndOfLastChild(nodes: seq<Node>, i: nat, k: nat, e: nat)
    requires WellNested(nodes) && i < k < e && i < |nodes| && Boundary(nodes, i, e)
    requires nodes[k].parent == Some(i) && forall j :: k < j < e ==> nodes[j].parent != Some(i)
    ensures End(nodes, k, k + 1) == e
  {
  }

  lemma {:induction false} NoChildrenBetween(nodes: seq<Node>, parent: Option<nat>, a: nat, b: nat)
    requires a <= b <= |nodes| && forall j :: a <= j < b ==> nodes[j].parent != parent
    ensures ChildrenOf(nodes, parent, b) == ChildrenOf(nodes, parent, a)
    decreases b - a
  {
    if a < b {
      NoChildrenBetween(nodes, parent, a, b - 1);
    }
  }

  lemma {:induction false} WalkOneMore(nodes: seq<Node>, i: nat, kids: seq<nat>, k: nat)
    requires ParentsPrecede(nodes) && i < k < |nodes| && Below(nodes, i, kids)
    ensures Walk(nodes, i, kids + [k]) == Walk(nodes, i, kids) + [k] + Descendants(nodes, k)
  {
  }

  lemma {:induction false} SpanAround(a: nat, k: nat, e: nat)
    requires a <= k < e
    ensures Span(a, e) == Span(a, k) + [k] + Span(k + 1, e)
  {
  }

  lemma {:induction false} BelowOneMore(nodes: seq<Node>, i: nat, kids: seq<nat>, k: nat)
    requires i < k < |nodes| && Below(nodes, i, kids)
    ensures Below(nodes, i, kids + [k])
  {
  }

  lemma {:induction false} WalkStep(nodes: seq<Node>, i: nat, k: nat, e: nat, kids: seq<nat>)
    requires ParentsPrecede(nodes) && i < k < e <= |nodes|
    requires Below(nodes, i, kids)
    requires Walk(nodes, i, kids) == Span(i + 1, k) && Descendants(nodes, k) == Span(k + 1, e)
    ensures Below(nodes, i, kids + [k])
    ensures Walk(nodes, i, kids + [k]) == Span(i + 1, e)
  {
    BelowOneMore(nodes, i, kids, k);
    WalkOneMore(nodes, i, kids, k);
    SpanAround(i + 1, k, e);
  }

  lemma {:induction false} WalkIsDocumentOrder(nodes: seq<Node>, i: nat, e: nat)
    requires WellNested(nodes) && ParentsPrecede(nodes) && i < |nodes| && Boundary(nodes, i, e)
    ensures Walk(nodes, i, ChildrenOf(nodes, Some(i), e)) == Span(i + 1, e)
    decreases |nodes| - i, 0, e
  {
    if e == i + 1 {
      NoChildrenBetween(nodes, Some(i), 0, i + 1);
    } else {
      var k := LastChild(nodes, i, e);
      WalkIsDocumentOrder(nodes, i, k);
      DepthFirstIsDocumentOrder(nodes, k);
      WalkStep(nodes, i, k, e, ChildrenOf(nodes, Some(i), k));
    }
  }

  /** The descendants of a node, depth first, are the nodes after it up to its end, in document order. */
  lemma {:induction false} DepthFirstIsDocumentOrder(nodes: seq<Node>, i: nat)
    requires WellNested(nodes) && ParentsPrecede(nodes) && i < |nodes|
    ensures Descendants(nodes, i) == Span(i + 1, End(nodes, i, i + 1))
    decreases |nodes| - i, 1, 0
  {
    var e := End(nodes, i, i + 1);
    WalkIsDocumentOrder(nodes, i, e);
    forall j | e <= j < |nodes| ensures nodes[j].parent != Some(i) {
      assert e < |nodes|;
    }
    NoChildrenBetween(nodes, Some(i), e, |nodes|);
  }

  /** The next root from `j` on, or the end of the text. */
  function NextRoot(nodes: seq<Node>, j: nat): (e: nat)
    requires j <= |nodes|
    ensures j <= e <= |nodes|
    ensures forall k :: j <= k < e ==> nodes[k].parent.Some?
    ensures e < |nodes| ==> nodes[e].parent.None?
    decreases |nodes| - j
  {
    if j == |nodes| || nodes[j].parent.None? then j else NextRoot(nodes, j + 1)
  }

  /** A node below an earlier root would have all nodes between them, r included, below that root. */
  lemma {:induction false} RootEndsAtNextRoot(nodes: seq<Node>, r: nat)
    requires WellNested(nodes) && r < |nodes| && nodes[r].parent.None?
    ensures End(nodes, r, r + 1) == NextRoot(nodes, r + 1)
  {
  }

  // ---------------------------------------------------------------- nothing lost

  /** The nodes that the roots among the first `upTo` nodes stand for. */
  ghost function Blocks(nodes: seq<Node>, upTo: nat): seq<nat>
    requires upTo <= |nodes|
  {
    if upTo == 0 then []
    else if nodes[upTo - 1].parent.None? then Blocks(nodes, upTo - 1) + Span(upTo - 1, NextRoot(nodes, upTo))
    else Blocks(nodes, upTo - 1)
  }

  /** The blocks of the roots, in order, are all nodes of the tree, each exactly once. */
  lemma {:induction false} BlocksAreAllNodes(nodes: seq<Node>, upTo: nat)
    requires WellNested(nodes) && upTo <= |nodes|
    ensures Blocks(nodes, upTo) == Span(0, if upTo == 0 then 0 else NextRoot(nodes, upTo))
  {
    if upTo != 0 {
      BlocksAreAllNodes(nodes, upTo - 1);
      if upTo == 1 {
        assert nodes[0].parent.None?;
      }
    }
  }

  // ---------------------------------------------------------------- texts

  function Join(parts: seq<string>, sep: string): string {
    if parts == [] then ""
    else if |parts| == 1 then parts[0]
    else Join(parts[..|parts| - 1], sep) + sep + parts[|parts| - 1]
  }

  function Name(heading: Label): string {
    match heading
    case ArticleLabel(number) => "Điều " + number
    case AnnexLabel(annex) => if annex.Some? then "Phụ lục " + annex.value else "Phụ lục"
    case ClauseLabel(number) => number + "."
    case PointLabel(number) => number + ")"
  }

  function TextOf(node: Node): string {
    Join(node.lines, "\n")
  }

  /** The line a folded unit contributes: its label, then its text if it has any. */
  function Entry(node: Node): string {
    if TextOf(node) == "" then Name(node.heading) else Name(node.heading) + " " + TextOf(node)
  }

  function Entries(nodes: seq<Node>, at: seq<nat>): seq<string>
    requires forall c :: 0 <= c < |at| ==> at[c] < |nodes|
  {
    if at == [] then [] else [Entry(nodes[at[0]])] + Entries(nodes, at[1..])
  }

  lemma {:induction false} EntriesJoin(nodes: seq<Node>, a: seq<nat>, b: seq<nat>)
    requires forall c :: 0 <= c < |a| ==> a[c] < |nodes|
    requires forall c :: 0 <= c < |b| ==> b[c] < |nodes|
    ensures Entries(nodes, a + b) == Entries(nodes, a) + Entries(nodes, b)
  {
    if a == [] {
      assert a + b == b;
    } else {
      EntriesJoin(nodes, a[1..], b);
      TailOfConcat(a, b);
      ConcatAssoc([Entry(nodes[a[0]])], Entries(nodes, a[1..]), Entries(nodes, b));
    }
  }

  function RootText(node: Node, below: seq<string>): string {
    Join((if TextOf(node) == "" then [] else [TextOf(node)]) + below, "\n")
  }

  datatype Root = Root(heading: Label, order: nat, text: string)

  /** A root with all nodes up to the next root folded into its text, in document order. */
  function RootAt(nodes: seq<Node>, r: nat): Root
    requires r < |nodes|
  {
    Root(nodes[r].heading, r, RootText(nodes[r], Entries(nodes, Span(r + 1, NextRoot(nodes, r + 1)))))
  }

  /** The dict of children holds exactly the non-empty child lists. */
  ghost predicate Groups(nodes: seq<Node>, children: map<Option<nat>, seq<nat>>, upTo: nat)
    requires upTo <= |nodes|
  {
    forall p :: HoldsChildren(nodes, children, p, upTo)
  }

  predicate HoldsChildren(nodes: seq<Node>, children: map<Option<nat>, seq<nat>>, p: Option<nat>, upTo: nat)
    requires upTo <= |nodes|
  {
    ChildrenOf(nodes, p, upTo) == if p in children then children[p] else []
  }

  lemma {:induction false} GroupsStep(
    nodes: seq<Node>, children: map<Option<nat>, seq<nat>>, i: nat, next: map<Option<nat>, seq<nat>>)
    requires i < |nodes| && Groups(nodes, children, i)
    requires
      var p := nodes[i].parent;
      next == children[p := (if p in children then children[p] else []) + [i]]
    ensures Groups(nodes, next, i + 1)
  {
    var upTo := i + 1;
    forall p ensures HoldsChildren(nodes, next, p, upTo) {
      assert HoldsChildren(nodes, children, p, i);
    }
  }

  method GroupByParent(nodes: seq<Node>) returns (children: map<Option<nat>, seq<nat>>)
    ensures Groups(nodes, children, |nodes|)
  {
    children := map[];
    for i := 0 to |nodes|
      invariant Groups(nodes, children, i)
    {
      var p := nodes[i].parent;
      var next := children[p := (if p in children then children[p] else []) + [i]];
      GroupsStep(nodes, children, i, next);
      children := next;
    }
  }

  lemma {:induction false} EntriesAround(nodes: seq<Node>, before: seq<nat>, k: nat, after: seq<nat>)
    requires forall c :: 0 <= c < |before| ==> before[c] < |nodes|
    requires k < |nodes| && forall c :: 0 <= c < |after| ==> after[c] < |nodes|
    ensures Entries(nodes, before + [k] + after) == Entries(nodes, before) + [Entry(nodes[k])] + Entries(nodes, after)
  {
    EntriesJoin(nodes, before + [k], after);
    EntriesJoin(nodes, before, [k]);
    assert Entries(nodes, [k]) == [Entry(nodes[k])];
  }

  lemma {:induction false} WalkedEntries(nodes: seq<Node>, i: nat, kids: seq<nat>, c: nat)
    requires ParentsPrecede(nodes) && i < |nodes| && Below(nodes, i, kids) && c < |kids|
    ensures Entries(nodes, Walk(nodes, i, kids[..c + 1]))
         == Entries(nodes, Walk(nodes, i, kids[..c])) + [Entry(nodes[kids[c]])]
           + Entries(nodes, Descendants(nodes, kids[c]))
  {
    assert kids[..c + 1] == kids[..c] + [kids[c]];
    WalkOneMore(nodes, i, kids[..c], kids[c]);
    EntriesAround(nodes, Walk(nodes, i, kids[..c]), kids[c], Descendants(nodes, kids[c]));
  }

  method DescendantLines(nodes: seq<Node>, children: map<Option<nat>, seq<nat>>, i: nat) returns (out: seq<string>)
    requires ParentsPrecede(nodes) && i < |nodes|
    requires Groups(nodes, children, |nodes|)
    ensures out == Entries(nodes, Descendants(nodes, i))
    decreases |nodes| - i
  {
    out := [];
    var kids := if Some(i) in children then children[Some(i)] else [];
    assert HoldsChildren(nodes, children, Some(i), |nodes|);
    for c := 0 to |kids|
      invariant out == Entries(nodes, Walk(nodes, i, kids[..c]))
    {
      WalkedEntries(nodes, i, kids, c);
      var below := DescendantLines(nodes, children, kids[c]);
      out := out + [Entry(nodes[kids[c]])] + below;
    }
    assert kids[..|kids|] == kids;
  }

  /** Main result: the recursive fold yields one text per root, holding the root's own text and the
      labelled texts of all nodes up to the next root, in document order. */
  method CollapseToArticles(nodes: seq<Node>) returns (collapsed: seq<Root>)
    requires WellNested(nodes)
    ensures
      var roots := ChildrenOf(nodes, None, |nodes|);
      |collapsed| == |roots| && forall c :: 0 <= c < |roots| ==> collapsed[c] == RootAt(nodes, roots[c])
  {
    var children := GroupByParent(nodes);
    var roots := if None in children then children[None] else [];
    assert HoldsChildren(nodes, children, None, |nodes|);
    collapsed := CollapseRoots(nodes, children, roots);
  }

  method CollapseRoots(nodes: seq<Node>, children: map<Option<nat>, seq<nat>>, roots: seq<nat>)
    returns (collapsed: seq<Root>)
    requires WellNested(nodes) && Groups(nodes, children, |nodes|)
    requires forall c :: 0 <= c < |roots| ==> roots[c] < |nodes| && nodes[roots[c]].parent.None?
    ensures |collapsed| == |roots| && forall c :: 0 <= c < |roots| ==> collapsed[c] == RootAt(nodes, roots[c])
  {
    collapsed := [];
    for c := 0 to |roots|
      invariant |collapsed| == c
      invariant forall d :: 0 <= d < c ==> collapsed[d] == RootAt(nodes, roots[d])
    {
      var root := CollapseRoot(nodes, children, roots[c]);
      collapsed := collapsed + [root];
    }
  }

  method CollapseRoot(nodes: seq<Node>, children: map<Option<nat>, seq<nat>>, r: nat) returns (root: Root)
    requires WellNested(nodes) && Groups(nodes, children, |nodes|)
    requires r < |nodes| && nodes[r].parent.None?
    ensures root == RootAt(nodes, r)
  {
    var below := DescendantLines(nodes, children, r);
    DepthFirstIsDocumentOrder(nodes, r);
    RootEndsAtNextRoot(nodes, r);
    root := Root(nodes[r].heading, r, RootText(nodes[r], below));
  }

  // ---------------------------------------------------------------- the text of a root, line by line

  lemma {:induction false} SplitPrefix(p: string, s: string)
    requires Lacks(p, '\n')
    ensures SplitOn(p + s, '\n') == [p + SplitOn(s, '\n')[0]] + SplitOn(s, '\n')[1..]
  {
    if p == "" {
      assert p + s == s && p + SplitOn(s, '\n')[0] == SplitOn(s, '\n')[0];
    } else {
      TailOfConcat(p, s);
      SplitFirst(p + s, '\n');
      SplitPrefix(p[1..], s);
      ConcatAssoc([p[0]], p[1..], SplitOn(s, '\n')[0]);
    }
  }

  /** The pieces of several texts, one after the other. */
  function PiecesOf(parts: seq<string>): seq<string> {
    if parts == [] then [] else SplitOn(parts[0], '\n') + PiecesOf(parts[1..])
  }

  lemma {:induction false} PiecesOfOne(part: string)
    ensures PiecesOf([part]) == SplitOn(part, '\n')
  {
    ConcatEmpty(SplitOn(part, '\n'));
    assert [part][1..] == [];
  }

  lemma {:induction false} PiecesOfConcat(a: seq<string>, b: seq<string>)
    ensures PiecesOf(a + b) == PiecesOf(a) + PiecesOf(b)
  {
    if a == [] {
      ConcatEmpty(b);
      ConcatEmpty(PiecesOf(b));
    } else {
      TailOfConcat(a, b);
      PiecesOfConcat(a[1..], b);
      ConcatAssoc(SplitOn(a[0], '\n'), PiecesOf(a[1..]), PiecesOf(b));
    }
  }

  /** Joining with line breaks is undone by splitting at them. */
  lemma {:induction false} JoinSplits(parts: seq<string>)
    requires parts != []
    ensures SplitOn(Join(parts, "\n"), '\n') == PiecesOf(parts)
  {
    var init, last := parts[..|parts| - 1], parts[|parts| - 1];
    PiecesOfOne(last);
    if init != [] {
      assert parts == init + [last];
      JoinSplits(init);
      PiecesOfConcat(init, [last]);
      SplitAtSeparator(Join(init, "\n"), last, '\n');
    } else {
      assert parts == [last];
    }
  }

  ghost predicate OneLiners(lines: seq<string>) {
    forall i :: 0 <= i < |lines| ==> Lacks(lines[i], '\n')
  }

  lemma {:induction false} PiecesOfOneLiners(lines: seq<string>)
    requires OneLiners(lines)
    ensures PiecesOf(lines) == lines
  {
    if lines != [] {
      PiecesOfOneLiners(lines[1..]);
      SplitWithoutSeparator(lines[0], '\n');
    }
  }

  /** How a unit is called in the text it is folded into. */
  function Caption(heading: Label): string {
    match heading
    case AnnexLabel(None) => "Phụ lục"
    case AnnexLabel(Some(annex)) => "Phụ lục " + annex
    case ArticleLabel(number) => "Điều " + number
    case ClauseLabel(number) => number + "."
    case PointLabel(number) => number + ")"
  }

  lemma CaptionIsName(heading: Label)
    ensures Name(heading) == Caption(heading)
  {
  }

  /** Captions and lines as the segmenter makes them: no line breaks inside, no empty lines. */
  ghost predicate Plain(node: Node) {
    && Lacks(Caption(node.heading), '\n') && OneLiners(node.lines)
    && forall i :: 0 <= i < |node.lines| ==> node.lines[i] != ""
  }

  lemma {:induction false} JoinOfLines(lines: seq<string>)
    requires forall i :: 0 <= i < |lines| ==> lines[i] != ""
    ensures Join(lines, "\n") == "" <==> lines == []
  {
  }

  lemma {:induction false} TextSplits(node: Node)
    requires Plain(node) && node.lines != []
    ensures TextOf(node) != "" && SplitOn(TextOf(node), '\n') == node.lines
  {
    JoinOfLines(node.lines);
    JoinSplits(node.lines);
    PiecesOfOneLiners(node.lines);
  }

  /** The lines a folded unit adds: its own, the first behind its caption, or the caption alone. */
  function FoldedLines(node: Node): seq<string> {
    if node.lines == [] then [Caption(node.heading)]
    else [Caption(node.heading) + " " + node.lines[0]] + node.lines[1..]
  }

  lemma {:induction false} EntrySplits(node: Node)
    requires Plain(node)
    ensures SplitOn(Entry(node), '\n') == FoldedLines(node)
  {
    CaptionIsName(node.heading);
    if node.lines == [] {
      SplitWithoutSeparator(Caption(node.heading), '\n');
    } else {
      TextSplits(node);
      SplitPrefix(Caption(node.heading) + " ", TextOf(node));
    }
  }

  function FoldedAll(nodes: seq<Node>, at: seq<nat>): seq<string>
    requires forall c :: 0 <= c < |at| ==> at[c] < |nodes|
  {
    if at == [] then [] else FoldedLines(nodes[at[0]]) + FoldedAll(nodes, at[1..])
  }

  lemma {:induction false} EntriesSplit(nodes: seq<Node>, at: seq<nat>)
    requires forall c :: 0 <= c < |at| ==> at[c] < |nodes| && Plain(nodes[at[c]])
    ensures PiecesOf(Entries(nodes, at)) == FoldedAll(nodes, at)
  {
    if at != [] {
      EntriesSplit(nodes, at[1..]);
      EntrySplits(nodes[at[0]]);
      PiecesOfConcat([Entry(nodes[at[0]])], Entries(nodes, at[1..]));
      PiecesOfOne(Entry(nodes[at[0]]));
    }
  }

  lemma {:induction false} RootTextSplits(node: Node, below: seq<string>)
    requires Plain(node)
    ensures
      var lines := node.lines + PiecesOf(below);
      && (node.lines == [] && below == [] ==> RootText(node, below) == "")
      && (node.lines != [] || below != [] ==> SplitOn(RootText(node, below), '\n') == lines)
  {
    JoinOfLines(node.lines);
    if node.lines != [] {
      var own := [TextOf(node)];
      TextSplits(node);
      PiecesOfOne(TextOf(node));
      PiecesOfConcat(own, below);
      JoinSplits(own + below);
    } else {
      ConcatEmpty(below);
      ConcatEmpty(PiecesOf(below));
      if below != [] {
        JoinSplits(below);
      }
    }
  }

  /** Main result on the text of a root: its lines are the root's own lines and then those of every node up to the
      next root, in order, each such node under its caption. */
  lemma {:induction false} CollapsedLines(nodes: seq<Node>, r: nat)
    requires r < |nodes| && forall i: nat :: i < |nodes| ==> Plain(nodes[i])
    ensures
      var span := Span(r + 1, NextRoot(nodes, r + 1));
      var lines := nodes[r].lines + FoldedAll(nodes, span);
      && (nodes[r].lines == [] && span == [] ==> RootAt(nodes, r).text == "")
      && (nodes[r].lines != [] || span != [] ==> SplitOn(RootAt(nodes, r).text, '\n') == lines)
  {
    var span := Span(r + 1, NextRoot(nodes, r + 1));
    EntriesSplit(nodes, span);
    RootTextSplits(nodes[r], Entries(nodes, span));
  }
}
