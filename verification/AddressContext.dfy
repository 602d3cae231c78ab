/** The second reading of the same text: a four-slot address context advanced line by line
    (evals/contract_graph/gold.py), and when it agrees with the tree of `Segmentation`. */
module AddressContext {
  import opened Basics
  import opened Segmentation

  /** Address levels, and the words a note can name. */
  datatype Level = Diem | Khoan | Dieu | PhuLuc
  datatype Asked = Smallest | CumTu | At(level: Level) | OtherWord

  datatype Context = Context(dieu: Option<string>, phuLuc: Option<string>, khoan: Option<string>, diem: Option<string>)

  const EMPTY := Context(None, None, None, None)
  const UNNUMBERED := "?"

  function LowerChar(c: char): char {
    if 'A' <= c <= 'Z' then (c as int + 32) as char else c
  }

  function Lower(s: string): string {
    seq(|s|, i requires 0 <= i < |s| => LowerChar(s[i]))
  }

  function AnnexValue(annex: Option<string>): string {
    if annex.Some? then Lower(annex.value) else UNNUMBERED
  }

  function Advance(ctx: Context, line: Line): Context {
    match line
    case Article(number, _) => Context(Some(number), None, None, None)
    case Annex(annex, _) => Context(None, Some(AnnexValue(annex)), None, None)
    case Division => EMPTY
    case Clause(number, _) => ctx.(khoan := Some(number), diem := None)
    case Point(number, _) => ctx.(diem := Some(number))
    case Blank => ctx
    case TextLine(_) => ctx
  }

  /** The context after the first `upTo` lines. */
  function ContextAfter(lines: seq<Line>, upTo: nat): Context
    requires upTo <= |lines|
  {
    if upTo == 0 then EMPTY else Advance(ContextAfter(lines, upTo - 1), lines[upTo - 1])
  }

  // ---------------------------------------------------------------- the address of a tree node

  function Refine(ctx: Context, heading: Label): Context {
    match heading
    case ArticleLabel(number) => ctx.(dieu := Some(number))
    case AnnexLabel(annex) => ctx.(phuLuc := Some(AnnexValue(annex)))
    case ClauseLabel(number) => ctx.(khoan := Some(number))
    case PointLabel(number) => ctx.(diem := Some(number))
  }

  /** The labels on the way from the root to a node, as a context. */
  function PathContext(nodes: seq<Node>, i: nat): Context
    requires i < |nodes|
  {
    var parent := nodes[i].parent;
    Refine(if parent.Some? && parent.value < i then PathContext(nodes, parent.value) else EMPTY, nodes[i].heading)
  }

  /** The unit `segment` is filling, as a context; empty when no unit is open. */
  function CurrentContext(st: State): Context {
    if st.current.Some? && st.current.value < |st.nodes| then PathContext(st.nodes, st.current.value) else EMPTY
  }

  /** PathContext reads only the part of the tree above the node. */
  lemma {:induction false} PathContextFrame(nodes: seq<Node>, more: seq<Node>, i: nat)
    requires i < |nodes| && |nodes| <= |more|
    requires forall k: nat :: k <= i ==> more[k].parent == nodes[k].parent && more[k].heading == nodes[k].heading
    ensures PathContext(more, i) == PathContext(nodes, i)
  {
    var parent := nodes[i].parent;
    if parent.Some? && parent.value < i {
      PathContextFrame(nodes, more, parent.value);
    }
  }

  // ---------------------------------------------------------------- agreement

  /** Line k lies in an article or annex opened after the last chapter or section heading. */
  predicate InArticle(lines: seq<Line>, k: nat)
    requires k <= |lines|
  {
    k > 0 && match lines[k - 1]
    case Article(_, _) => true
    case Annex(_, _) => true
    case Division => false
    case _ => InArticle(lines, k - 1)
  }

  /** No clause or point heading among the first `upTo` lines stands outside an article or annex. */
  predicate Anchored(lines: seq<Line>, upTo: nat)
    requires upTo <= |lines|
  {
    forall k: nat :: k < upTo && (lines[k].Clause? || lines[k].Point?) ==> InArticle(lines, k)
  }

  /** What both readings know about the open units when they agree. */
  ghost predicate Aligned(st: State, ctx: Context, inArticle: bool) {
    && TreeOk(st)
    && ctx == CurrentContext(st)
    && (inArticle <==> st.current.Some?)
    && (inArticle ==>
          && st.article.Some?
          && ctx.dieu == PathContext(st.nodes, st.article.value).dieu
          && ctx.phuLuc == PathContext(st.nodes, st.article.value).phuLuc
          && (ctx.dieu.Some? || ctx.phuLuc.Some?)
          && (if st.clause.Some? then ctx.khoan == PathContext(st.nodes, st.clause.value).khoan else ctx.khoan == None))
  }

  lemma {:induction false} RootContext(nodes: seq<Node>, i: nat)
    requires i < |nodes| && WellLabelled(nodes) && IsRoot(nodes[i])
    ensures PathContext(nodes, i) == Refine(EMPTY, nodes[i].heading)
  {
    assert LabelFits(nodes, i);
  }

  lemma {:induction false} ClauseContext(nodes: seq<Node>, i: nat, a: nat)
    requires a < i < |nodes| && WellLabelled(nodes) && IsRoot(nodes[a])
    requires nodes[i].heading.ClauseLabel? && nodes[i].parent == Some(a)
    ensures PathContext(nodes, i) == Refine(Refine(EMPTY, nodes[a].heading), nodes[i].heading)
  {
    RootContext(nodes, a);
  }

  lemma {:induction false} NewNodeContext(nodes: seq<Node>, node: Node)
    ensures
      var more := nodes + [node];
      PathContext(more, |nodes|)
      == Refine(
           if node.parent.Some? && node.parent.value < |nodes| then PathContext(nodes, node.parent.value) else EMPTY,
           node.heading)
  {
    if node.parent.Some? && node.parent.value < |nodes| {
      PathContextFrame(nodes, nodes + [node], node.parent.value);
    }
  }

  lemma {:induction false} AlignedHeading(st: State, ctx: Context, inArticle: bool, line: Line)
    requires Aligned(st, ctx, inArticle)
    requires line.Article? || line.Annex? || ((line.Clause? || line.Point?) && inArticle)
    ensures Aligned(Step(st, line), Advance(ctx, line), true)
  {
    StepKeepsTree(st, line);
    var next := Step(st, line);
    NewNodeContext(st.nodes, next.nodes[|st.nodes|]);
    if line.Clause? || line.Point? {
      var a := st.article.value;
      PathContextFrame(st.nodes, next.nodes, a);
      RootContext(st.nodes, a);
      if st.clause.Some? {
        PathContextFrame(st.nodes, next.nodes, st.clause.value);
        ClauseContext(st.nodes, st.clause.value, a);
      }
    }
  }

  lemma {:induction false} AlignedText(st: State, ctx: Context, inArticle: bool, text: string)
    requires Aligned(st, ctx, inArticle)
    ensures Aligned(Step(st, TextLine(text)), ctx, inArticle)
  {
    StepKeepsTree(st, TextLine(text));
    if st.current.Some? {
      var next := Step(st, TextLine(text));
      PathContextFrame(st.nodes, next.nodes, st.current.value);
      PathContextFrame(st.nodes, next.nodes, st.article.value);
      if st.clause.Some? {
        PathContextFrame(st.nodes, next.nodes, st.clause.value);
      }
    }
  }

  /** One anchored line keeps the two readings aligned. */
  lemma {:induction false} AlignedStep(lines: seq<Line>, k: nat)
    requires k < |lines| && Anchored(lines, k + 1)
    requires Aligned(After(lines, k), ContextAfter(lines, k), InArticle(lines, k))
    ensures Aligned(After(lines, k + 1), ContextAfter(lines, k + 1), InArticle(lines, k + 1))
  {
    var st, ctx, inArticle := After(lines, k), ContextAfter(lines, k), InArticle(lines, k);
    match lines[k]
    case Blank =>
    case Division => StepKeepsTree(st, Division);
    case TextLine(text) => AlignedText(st, ctx, inArticle, text);
    case _ => AlignedHeading(st, ctx, inArticle, lines[k]);
  }

  lemma {:induction false} AnchoredIsAligned(lines: seq<Line>, k: nat)
    requires k <= |lines| && Anchored(lines, k)
    ensures Aligned(After(lines, k), ContextAfter(lines, k), InArticle(lines, k))
  {
    if k != 0 {
      AnchoredIsAligned(lines, k - 1);
      AlignedStep(lines, k - 1);
    }
  }

  /** A stray clause or point heading makes the two readings differ on that very line. */
  lemma {:induction false} StrayHeadingDiffers(lines: seq<Line>, k: nat)
    requires k < |lines| && Anchored(lines, k) && !InArticle(lines, k)
    requires lines[k].Clause? || lines[k].Point?
    ensures ContextAfter(lines, k + 1) != CurrentContext(After(lines, k + 1))
  {
    AnchoredIsAligned(lines, k);
    var st := After(lines, k);
    assert ContextAfter(lines, k) == EMPTY;
    if st.article.Some? {
      var next := Step(st, lines[k]);
      NewNodeContext(st.nodes, next.nodes[|st.nodes|]);
      RootContext(st.nodes, st.article.value);
      if st.clause.Some? {
        ClauseContext(st.nodes, st.clause.value, st.article.value);
      }
    }
  }

  // ---------------------------------------------------------------- raw and stripped lines

  predicate NoHeading(line: Line) {
    line.Blank? || line.TextLine?
  }

  /** The extractor reads a line as it stands, the segmenter without its note markers. Both see the same
      heading, or both see none. */
  predicate SameHeading(raw: Line, stripped: Line) {
    match raw
    case Article(number, _) => stripped.Article? && stripped.number == number
    case Annex(annex, _) => stripped.Annex? && stripped.annex == annex
    case Division => stripped.Division?
    case Clause(number, _) => stripped.Clause? && stripped.number == number
    case Point(number, _) => stripped.Point? && stripped.number == number
    case Blank => NoHeading(stripped)
    case TextLine(_) => NoHeading(stripped)
  }

  predicate SameHeadings(raw: seq<Line>, stripped: seq<Line>, upTo: nat)
    requires upTo <= |raw| == |stripped|
  {
    forall k :: 0 <= k < upTo ==> SameHeading(raw[k], stripped[k])
  }

  /** The context of the raw lines is the path of the unit the segmenter fills from the stripped ones. */
  predicate ReadingsAgree(raw: seq<Line>, stripped: seq<Line>)
    requires |raw| == |stripped|
  {
    forall k: nat :: k <= |raw| ==> ContextAfter(raw, k) == CurrentContext(After(stripped, k))
  }

  lemma {:induction false} SameContext(raw: seq<Line>, stripped: seq<Line>, k: nat)
    requires k <= |raw| == |stripped| && SameHeadings(raw, stripped, k)
    ensures ContextAfter(raw, k) == ContextAfter(stripped, k)
  {
    if k > 0 {
      SameContext(raw, stripped, k - 1);
      assert SameHeading(raw[k - 1], stripped[k - 1]);
    }
  }

  /** Main result: where note markers hide no heading, the context kept by the gold extractor equals,
      after every line, the path to the unit the segmenter is filling, exactly when no clause or point
      heading is stray. */
  lemma {:induction false} ReadingsAgreeExactlyWhenAnchored(raw: seq<Line>, stripped: seq<Line>)
    requires |raw| == |stripped| && SameHeadings(raw, stripped, |raw|)
    ensures ReadingsAgree(raw, stripped) <==> Anchored(stripped, |stripped|)
  {
    if Anchored(stripped, |stripped|) {
      forall k: nat | k <= |raw| ensures ContextAfter(raw, k) == CurrentContext(After(stripped, k)) {
        AnchoredIsAligned(stripped, k);
        SameContext(raw, stripped, k);
      }
    } else {
      var k := FirstStray(stripped, |stripped|);
      StrayHeadingDiffers(stripped, k);
      SameContext(raw, stripped, k + 1);
    }
  }

  /** With any markers, an anchored text is read alike exactly when each raw line moves the context as
      its stripped form does. */
  lemma {:induction false} AnchoredReadingsAgreeExactlyWhenMovedAlike(raw: seq<Line>, stripped: seq<Line>)
    requires |raw| == |stripped| && Anchored(stripped, |stripped|)
    ensures ReadingsAgree(raw, stripped)
       <==> forall k: nat :: k < |raw| ==>
              Advance(ContextAfter(stripped, k), raw[k]) == Advance(ContextAfter(stripped, k), stripped[k])
  {
    forall k: nat | k <= |raw| ensures ContextAfter(stripped, k) == CurrentContext(After(stripped, k)) {
      AnchoredIsAligned(stripped, k);
    }
    if ReadingsAgree(raw, stripped) {
      forall k: nat | k < |raw|
        ensures Advance(ContextAfter(stripped, k), raw[k]) == Advance(ContextAfter(stripped, k), stripped[k])
      {
        assert ContextAfter(raw, k) == ContextAfter(stripped, k);
        assert ContextAfter(raw, k + 1) == ContextAfter(stripped, k + 1);
      }
    } else {
      var k: nat :| k <= |raw| && ContextAfter(raw, k) != ContextAfter(stripped, k);
      var j := FirstParting(raw, stripped, k);
    }
  }

  lemma {:induction false} FirstParting(raw: seq<Line>, stripped: seq<Line>, k: nat) returns (j: nat)
    requires k <= |raw| == |stripped| && ContextAfter(raw, k) != ContextAfter(stripped, k)
    ensures j < k && Advance(ContextAfter(stripped, j), raw[j]) != Advance(ContextAfter(stripped, j), stripped[j])
  {
    if ContextAfter(raw, k - 1) == ContextAfter(stripped, k - 1) {
      j := k - 1;
    } else {
      j := FirstParting(raw, stripped, k - 1);
    }
  }

  /** A marker before the full stop of an article heading hides the heading from the extractor alone. */
  lemma {:induction false} HiddenHeadingDiffers(text: string, number: string, rest: string)
    ensures !ReadingsAgree([TextLine(text)], [Article(number, rest)])
  {
    var raw, stripped := [TextLine(text)], [Article(number, rest)];
    AnchoredIsAligned(stripped, 1);
    assert ContextAfter(raw, 1) == EMPTY;
    assert ContextAfter(stripped, 1) == Context(Some(number), None, None, None);
  }

  lemma {:induction false} FirstStray(lines: seq<Line>, upTo: nat) returns (k: nat)
    requires upTo <= |lines| && !Anchored(lines, upTo)
    ensures k < upTo && Anchored(lines, k) && !InArticle(lines, k) && (lines[k].Clause? || lines[k].Point?)
  {
    if upTo > 0 && !Anchored(lines, upTo - 1) {
      k := FirstStray(lines, upTo - 1);
    } else {
      k := upTo - 1;
    }
  }

  // ---------------------------------------------------------------- the address of a marker

  type Address = seq<(Level, string)>

  function Value(ctx: Context, level: Level): Option<string> {
    match level
    case Diem => ctx.diem
    case Khoan => ctx.khoan
    case Dieu => ctx.dieu
    case PhuLuc => ctx.phuLuc
  }

  function Part(ctx: Context, level: Level): Address {
    if Value(ctx, level).Some? then [(level, Value(ctx, level).value)] else []
  }

  /** The filled slots from one level up to the largest, smallest first. */
  function PartsFrom(ctx: Context, level: Level): Address {
    match level
    case Diem => Part(ctx, Diem) + Part(ctx, Khoan) + Part(ctx, Dieu) + Part(ctx, PhuLuc)
    case Khoan => Part(ctx, Khoan) + Part(ctx, Dieu) + Part(ctx, PhuLuc)
    case Dieu => Part(ctx, Dieu) + Part(ctx, PhuLuc)
    case PhuLuc => Part(ctx, PhuLuc)
  }

  function SmallestLevel(ctx: Context): Option<Level> {
    if ctx.diem.Some? then Some(Diem)
    else if ctx.khoan.Some? then Some(Khoan)
    else if ctx.dieu.Some? then Some(Dieu)
    else if ctx.phuLuc.Some? then Some(PhuLuc)
    else None
  }

  function AddressAt(ctx: Context, asked: Asked): Option<Address> {
    if ctx.phuLuc == Some(UNNUMBERED) then None
    else
      var level :=
        match asked
        case Smallest => SmallestLevel(ctx)
        case CumTu => SmallestLevel(ctx)
        case At(l) => Some(l)
        case OtherWord => None;
      if level.None? || Value(ctx, level.value).None? then None else Some(PartsFrom(ctx, level.value))
  }

  /** Reads lines until the first one that carries the marker. */
  method AnchorTarget(lines: seq<Line>, marked: seq<bool>, asked: Asked) returns (r: Option<Address>)
    requires |marked| == |lines|
    ensures (forall k :: 0 <= k < |lines| ==> !marked[k]) ==> r == None
    ensures forall k :: 0 <= k < |lines| && marked[k] && (forall j :: 0 <= j < k ==> !marked[j])
              ==> r == AddressAt(ContextAfter(lines, k + 1), asked)
  {
    var ctx := EMPTY;
    for k := 0 to |lines|
      invariant ctx == ContextAfter(lines, k)
      invariant forall j :: 0 <= j < k ==> !marked[j]
    {
      ctx := Advance(ctx, lines[k]);
      if marked[k] {
        return AddressAt(ctx, asked);
      }
    }
    return None;
  }

  function LevelOf(heading: Label): Level {
    match heading
    case ArticleLabel(_) => Dieu
    case AnnexLabel(_) => PhuLuc
    case ClauseLabel(_) => Khoan
    case PointLabel(_) => Diem
  }

  function ValueOf(heading: Label): string {
    match heading
    case ArticleLabel(number) => number
    case AnnexLabel(annex) => AnnexValue(annex)
    case ClauseLabel(number) => number
    case PointLabel(number) => number
  }

  /** The labels from a node up to its root. */
  function PathOf(nodes: seq<Node>, i: nat): Address
    requires i < |nodes|
  {
    var parent := nodes[i].parent;
    [(LevelOf(nodes[i].heading), ValueOf(nodes[i].heading))]
    + if parent.Some? && parent.value < i then PathOf(nodes, parent.value) else []
  }

  /** The node itself or the ancestor of it at a level. */
  function AncestorAt(nodes: seq<Node>, i: nat, level: Level): (r: Option<nat>)
    requires i < |nodes|
    ensures r.Some? ==> r.value <= i && LevelOf(nodes[r.value].heading) == level
  {
    var parent := nodes[i].parent;
    if LevelOf(nodes[i].heading) == level then Some(i)
    else if parent.Some? && parent.value < i then AncestorAt(nodes, parent.value, level)
    else None
  }

  /** The slots of a node's path context are its path, and each slot is the ancestor at that level. */
  lemma {:induction false} ContextIsPath(nodes: seq<Node>, i: nat)
    requires i < |nodes| && WellLabelled(nodes)
    ensures PartsFrom(PathContext(nodes, i), LevelOf(nodes[i].heading)) == PathOf(nodes, i)
    ensures SmallestLevel(PathContext(nodes, i)) == Some(LevelOf(nodes[i].heading))
  {
    assert LabelFits(nodes, i);
    var parent := nodes[i].parent;
    if parent.Some? {
      assert LabelFits(nodes, parent.value);
      ContextIsPath(nodes, parent.value);
    }
  }

  function Rank(level: Level): nat {
    match level case Diem => 0 case Khoan => 1 case Dieu => 2 case PhuLuc => 3
  }

  lemma {:induction false} RefiningSmallerLevel(ctx: Context, heading: Label, level: Level)
    requires Rank(LevelOf(heading)) < Rank(level)
    ensures PartsFrom(Refine(ctx, heading), level) == PartsFrom(ctx, level)
  {
  }

  lemma {:induction false} SlotIsAncestor(nodes: seq<Node>, i: nat, level: Level)
    requires i < |nodes| && WellLabelled(nodes)
    ensures Value(PathContext(nodes, i), level).Some? <==> AncestorAt(nodes, i, level).Some?
    ensures AncestorAt(nodes, i, level).Some? ==> Rank(level) >= Rank(LevelOf(nodes[i].heading))
  {
    assert LabelFits(nodes, i);
    if nodes[i].parent.Some? {
      assert LabelFits(nodes, nodes[i].parent.value);
      SlotIsAncestor(nodes, nodes[i].parent.value, level);
    }
  }

  lemma {:induction false} LargerPartsAreTheParents(nodes: seq<Node>, i: nat, level: Level)
    requires i < |nodes| && WellLabelled(nodes) && AncestorAt(nodes, i, level).Some?
    ensures PartsFrom(PathContext(nodes, i), level) == PathOf(nodes, AncestorAt(nodes, i, level).value)
  {
    if LevelOf(nodes[i].heading) == level {
      ContextIsPath(nodes, i);
    } else {
      assert LabelFits(nodes, i);
      SlotIsAncestor(nodes, i, level);
      LargerPartsAreTheParents(nodes, nodes[i].parent.value, level);
      RefiningSmallerLevel(PathContext(nodes, nodes[i].parent.value), nodes[i].heading, level);
    }
  }

  /** The node a note on node `i` means: the node itself, or its ancestor at the asked level. */
  function UnitOf(nodes: seq<Node>, i: nat, asked: Asked): (r: Option<nat>)
    requires i < |nodes|
    ensures r.Some? ==> r.value <= i
  {
    match asked
    case Smallest => Some(i)
    case CumTu => Some(i)
    case At(level) => AncestorAt(nodes, i, level)
    case OtherWord => None
  }

  lemma {:induction false} AddressOfSmallest(nodes: seq<Node>, i: nat, asked: Asked)
    requires i < |nodes| && WellLabelled(nodes) && (asked.Smallest? || asked.CumTu?)
    requires PathContext(nodes, i).phuLuc != Some(UNNUMBERED)
    ensures AddressAt(PathContext(nodes, i), asked) == Some(PathOf(nodes, i))
  {
    ContextIsPath(nodes, i);
  }

  lemma {:induction false} AddressAtLevel(nodes: seq<Node>, i: nat, level: Level)
    requires i < |nodes| && WellLabelled(nodes)
    requires PathContext(nodes, i).phuLuc != Some(UNNUMBERED)
    ensures var unit := AncestorAt(nodes, i, level);
      AddressAt(PathContext(nodes, i), At(level)) == if unit.None? then None else Some(PathOf(nodes, unit.value))
  {
    SlotIsAncestor(nodes, i, level);
    if AncestorAt(nodes, i, level).Some? {
      LargerPartsAreTheParents(nodes, i, level);
    }
  }

  lemma {:induction false} AddressOfNode(nodes: seq<Node>, i: nat, asked: Asked)
    requires i < |nodes| && WellLabelled(nodes)
    ensures var ctx, unit := PathContext(nodes, i), UnitOf(nodes, i, asked);
      AddressAt(ctx, asked)
      == if ctx.phuLuc == Some(UNNUMBERED) || unit.None? then None else Some(PathOf(nodes, unit.value))
  {
    if PathContext(nodes, i).phuLuc != Some(UNNUMBERED) {
      match asked
      case Smallest => AddressOfSmallest(nodes, i, asked);
      case CumTu => AddressOfSmallest(nodes, i, asked);
      case At(level) => AddressAtLevel(nodes, i, level);
      case OtherWord =>
    }
  }

  /** The tree node a note means, judged from the unit being filled. */
  function MeantUnit(st: State, asked: Asked): (r: Option<nat>)
    ensures r.Some? ==> r.value < |st.nodes|
  {
    if st.current.None? || st.current.value >= |st.nodes| then None else UnitOf(st.nodes, st.current.value, asked)
  }

  /** In an anchored text a marker's address is the path of the tree node its note means; inside an
      unnumbered annex there is none. */
  lemma {:induction false} AnchoredAddressIsTreePath(raw: seq<Line>, stripped: seq<Line>, k: nat, asked: Asked)
    requires k <= |raw| == |stripped| && SameHeadings(raw, stripped, k) && Anchored(stripped, k)
    ensures
      var st, unit := After(stripped, k), MeantUnit(After(stripped, k), asked);
      AddressAt(ContextAfter(raw, k), asked)
      == if ContextAfter(raw, k).phuLuc == Some(UNNUMBERED) || unit.None? then None
         else Some(PathOf(st.nodes, unit.value))
  {
    SameContext(raw, stripped, k);
    AnchoredIsAligned(stripped, k);
    var st := After(stripped, k);
    if st.current.Some? && st.current.value < |st.nodes| {
      AddressOfNode(st.nodes, st.current.value, asked);
    }
  }

  /** Lower-casing an annex number changes the capital letters and nothing else. */
  lemma {:induction false} LowerLetters(s: string, i: nat)
    requires i < |s|
    ensures |Lower(s)| == |s|
    ensures forall k :: 0 <= k < 26 && s[i] == "ABCDEFGHIJKLMNOPQRSTUVWXYZ"[k] ==>
      Lower(s)[i] == "abcdefghijklmnopqrstuvwxyz"[k]
    ensures s[i] !in "ABCDEFGHIJKLMNOPQRSTUVWXYZ" ==> Lower(s)[i] == s[i]
  {
    var capitals := "ABCDEFGHIJKLMNOPQRSTUVWXYZ";
    if 'A' <= s[i] <= 'Z' {
      assert capitals[s[i] as int - 'A' as int] == s[i];
    }
  }
}
