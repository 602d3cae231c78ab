/** The ground-truth review file: pages printed to Markdown and parsed back
    (ai-service/scripts/ground_truth_review.py).

    The two line-anchored patterns are read line by line; digits are ASCII digits. */
module ReviewMarkdown {
  import opened Basics
  import opened Strings
  import Decimal

  const FENCE := "````text"
  const CLOSE := "````"
  const TITLE := "## Trang "

  // ---------------------------------------------------------------- lines

  function Split(s: string): seq<string> {
    SplitOn(s, '\n')
  }

  /** Each part followed by a line break: `"\n".join(parts) + "\n"`. */
  function Content(parts: seq<string>): string {
    if parts == [] then "" else parts[0] + "\n" + Content(parts[1..])
  }

  predicate OneLine(s: string) {
    Lacks(s, '\n')
  }

  function SplitAll(parts: seq<string>): seq<string> {
    if parts == [] then [] else Split(parts[0]) + SplitAll(parts[1..])
  }

  lemma {:induction false} SplitContent(parts: seq<string>)
    ensures Split(Content(parts)) == SplitAll(parts) + [""]
  {
    if parts != [] {
      SplitContent(parts[1..]);
      SplitAtSeparator(parts[0], Content(parts[1..]), '\n');
    }
  }

  lemma {:induction false} SplitAllJoin(a: seq<string>, b: seq<string>)
    ensures SplitAll(a + b) == SplitAll(a) + SplitAll(b)
  {
    if a == [] {
      ConcatEmpty(b);
      ConcatEmpty(SplitAll(b));
    } else {
      SplitAllJoin(a[1..], b);
      TailOfConcat(a, b);
      ConcatAssoc(Split(a[0]), SplitAll(a[1..]), SplitAll(b));
    }
  }

  lemma {:induction false} SplitAllOneLine(parts: seq<string>)
    requires forall i :: 0 <= i < |parts| ==> OneLine(parts[i])
    ensures SplitAll(parts) == parts
  {
    if parts != [] {
      SplitWithoutSeparator(parts[0], '\n');
      SplitAllOneLine(parts[1..]);
    }
  }

  // ---------------------------------------------------------------- patterns

  /** Reads as `## Trang N`, trailing white space allowed. */
  predicate IsSection(line: string) {
    TITLE <= line &&
    exists k :: |TITLE| < k <= |line| && Decimal.AllDigits(line[|TITLE|..k]) && AllSpace(line[k..])
  }

  /** A bare four-backtick fence. */
  predicate IsFence(line: string) {
    CLOSE <= line && AllSpace(line[|CLOSE|..])
  }

  /** `rstrip("\n")`. */
  function RStrip(s: string): string {
    if s != "" && s[|s| - 1] == '\n' then RStrip(s[..|s| - 1]) else s
  }

  // ---------------------------------------------------------------- printing

  function PageParts(number: nat, page: string, image: Option<string>): seq<string> {
    ["", "---", "", TITLE + Decimal.DecimalText(number), ""]
    + (if image.Some? then ["<img src=\"" + image.value + "\" width=\"600\">", ""] else [])
    + [FENCE, page, CLOSE]
  }

  function PagesParts(pages: seq<string>, images: seq<Option<string>>, upTo: nat): seq<string>
    requires upTo <= |pages| == |images|
  {
    if upTo == 0 then [] else PagesParts(pages, images, upTo - 1) + PageParts(upTo, pages[upTo - 1], images[upTo - 1])
  }

  function Header(id: string, source: string, instructions: string): seq<string> {
    ["# " + id, "", "Nguồn: " + source, "", "Sửa " + instructions]
  }

  function Exported(
    id: string, source: string, instructions: string, pages: seq<string>, images: seq<Option<string>>): string
    requires |pages| == |images|
  {
    Content(Header(id, source, instructions) + PagesParts(pages, images, |pages|))
  }

  /** Collects the parts of the review file page by page. */
  method Export(id: string, source: string, instructions: string, pages: seq<string>, images: seq<Option<string>>)
    returns (content: string)
    requires |pages| == |images|
    ensures content == Exported(id, source, instructions, pages, images)
  {
    var parts := Header(id, source, instructions);
    for i := 0 to |pages|
      invariant parts == Header(id, source, instructions) + PagesParts(pages, images, i)
    {
      parts := parts + ["", "---", "", TITLE + Decimal.DecimalText(i + 1), ""];
      if images[i].Some? {
        parts := parts + ["<img src=\"" + images[i].value + "\" width=\"600\">", ""];
      }
      parts := parts + [FENCE, pages[i], CLOSE];
    }
    content := Content(parts);
  }

  // ---------------------------------------------------------------- parsing

  /** The lines from the first section title on. */
  function FromSection(lines: seq<string>): (r: seq<string>)
    ensures |r| <= |lines|
    ensures r != [] ==> IsSection(r[0])
  {
    if lines == [] || IsSection(lines[0]) then lines else FromSection(lines[1..])
  }

  /** The lines before the first section title. */
  function ToSection(lines: seq<string>): seq<string> {
    if lines == [] || IsSection(lines[0]) then [] else [lines[0]] + ToSection(lines[1..])
  }

  function AfterFence(lines: seq<string>): Option<seq<string>> {
    if lines == [] then None else if lines[0] == FENCE then Some(lines[1..]) else AfterFence(lines[1..])
  }

  function BeforeClose(lines: seq<string>): Option<seq<string>> {
    if lines == [] then None
    else if IsFence(lines[0]) then Some([])
    else if BeforeClose(lines[1..]).None? then None
    else Some([lines[0]] + BeforeClose(lines[1..]).value)
  }

  /** The text of the fenced block of a section, trailing line breaks removed. */
  function Block(lines: seq<string>): Option<string> {
    if AfterFence(lines).None? then None
    else if BeforeClose(AfterFence(lines).value).None? then None
    else Some(RStrip(Content(BeforeClose(AfterFence(lines).value).value)))
  }

  /** The pages of a review file, or nothing when a section has no block. */
  function Parsed(lines: seq<string>): Option<seq<string>>
    decreases |lines|
  {
    var s := FromSection(lines);
    if s == [] then Some([])
    else if Block(ToSection(s[1..])).None? then None
    else Prepend([Block(ToSection(s[1..])).value], Parsed(s[1..]))
  }

  function Prepend(pages: seq<string>, rest: Option<seq<string>>): Option<seq<string>> {
    if rest.None? then None else Some(pages + rest.value)
  }

  lemma {:induction false} PrependMore(pages: seq<string>, page: string, rest: Option<seq<string>>)
    ensures Prepend(pages, Prepend([page], rest)) == Prepend(pages + [page], rest)
    ensures Prepend([], rest) == rest
  {
    if rest.Some? {
      assert pages + ([page] + rest.value) == pages + [page] + rest.value;
      assert [] + rest.value == rest.value;
    }
  }

  /** Visits the sections in order and takes the block of each. */
  method Import(content: string) returns (r: Option<seq<string>>)
    ensures r == Parsed(Split(content))
  {
    ghost var all := Parsed(Split(content));
    var rest := FromSection(Split(content));
    FromSectionTwice(Split(content));
    var pages: seq<string> := [];
    PrependMore([], "", Parsed(rest));
    while rest != []
      invariant rest == [] || IsSection(rest[0])
      invariant all == Prepend(pages, Parsed(rest))
      decreases |rest|
    {
      var block := Block(ToSection(rest[1..]));
      if block.None? {
        return None;
      }
      PrependMore(pages, block.value, Parsed(rest[1..]));
      FromSectionTwice(rest[1..]);
      pages := pages + [block.value];
      rest := FromSection(rest[1..]);
    }
    assert pages + [] == pages;
    r := Some(pages);
  }

  lemma {:induction false} FromSectionTwice(lines: seq<string>)
    ensures Parsed(FromSection(lines)) == Parsed(lines)
  {
  }

  // ---------------------------------------------------------------- the lines of an exported file

  lemma {:induction false} TitleIsSection(number: nat)
    ensures IsSection(TITLE + Decimal.DecimalText(number))
  {
    var line := TITLE + Decimal.DecimalText(number);
    assert line[|TITLE|..|line|] == Decimal.DecimalText(number);
    assert AllSpace(line[|line|..]);
  }

  /** The fixed lines of a page before its text, from the section title on. */
  function Opening(image: Option<string>): seq<string> {
    [""] + (if image.Some? then ["<img src=\"" + image.value + "\" width=\"600\">", ""] else []) + [FENCE]
  }

  const RULE := ["", "---", ""]

  /** The lines of the pages from number `i` on. */
  ghost function PageLines(pages: seq<string>, images: seq<Option<string>>, i: nat): seq<string>
    requires i <= |pages| == |images|
    decreases |pages| - i
  {
    if i == |pages| then [""]
    else
      RULE + [TITLE + Decimal.DecimalText(i + 1)] + Opening(images[i]) + Split(pages[i]) + [CLOSE]
      + PageLines(pages, images, i + 1)
  }

  lemma {:induction false} ExportedLines(
    id: string, source: string, instructions: string, pages: seq<string>, images: seq<Option<string>>)
    requires |pages| == |images| && OneLine(id) && OneLine(source) && OneLine(instructions) && PlainImages(images)
    ensures Split(Exported(id, source, instructions, pages, images))
         == Header(id, source, instructions) + PageLines(pages, images, 0)
  {
    var header, parts := Header(id, source, instructions), PagesParts(pages, images, |pages|);
    HeaderSplits(id, source, instructions);
    SplitContent(header + parts);
    SplitAllJoin(header, parts);
    LinesFrom(pages, images, 0);
    assert PagesParts(pages, images, 0) == [];
    ConcatAssoc(header, SplitAll(parts), [""]);
    ConcatEmpty(PageLines(pages, images, 0));
  }

  lemma {:induction false} HeaderSplits(id: string, source: string, instructions: string)
    requires OneLine(id) && OneLine(source) && OneLine(instructions)
    ensures SplitAll(Header(id, source, instructions)) == Header(id, source, instructions)
  {
    var header := Header(id, source, instructions);
    PrefixedLine("# ", id);
    PrefixedLine("Nguồn: ", source);
    PrefixedLine("Sửa ", instructions);
    SplitAllOneLine(header);
  }

  lemma PrefixedLine(a: string, b: string)
    requires OneLine(a) && OneLine(b)
    ensures OneLine(a + b)
  {
  }

  ghost predicate PlainImages(images: seq<Option<string>>) {
    forall i :: 0 <= i < |images| && images[i].Some? ==> OneLine(images[i].value)
  }

  lemma {:induction false} PageSplits(number: nat, page: string, image: Option<string>)
    requires image.Some? ==> OneLine(image.value)
    ensures SplitAll(PageParts(number, page, image))
         == RULE + [TITLE + Decimal.DecimalText(number)] + Opening(image) + Split(page) + [CLOSE]
  {
    var before := RULE + [TITLE + Decimal.DecimalText(number)] + Opening(image);
    TitleIsOneLine(number);
    assert PageParts(number, page, image) == before + [page, CLOSE];
    SplitAllJoin(before, [page, CLOSE]);
    SplitAllOneLine(before);
    ClosedPageSplits(page);
    ConcatAssoc(before, Split(page), [CLOSE]);
  }

  lemma {:induction false} TitleIsOneLine(number: nat)
    ensures OneLine(TITLE + Decimal.DecimalText(number))
  {
    PrefixedLine(TITLE, Decimal.DecimalText(number));
  }

  lemma {:induction false} ClosedPageSplits(page: string)
    ensures SplitAll([page, CLOSE]) == Split(page) + [CLOSE]
  {
    SplitWithoutSeparator(CLOSE, '\n');
    assert SplitAll([page, CLOSE]) == Split(page) + SplitAll([CLOSE]);
    assert SplitAll([CLOSE]) == [CLOSE] + SplitAll([]);
  }

  lemma {:induction false} LinesFrom(pages: seq<string>, images: seq<Option<string>>, i: nat)
    requires i <= |pages| == |images| && PlainImages(images)
    ensures SplitAll(PagesParts(pages, images, |pages|)) + [""]
         == SplitAll(PagesParts(pages, images, i)) + PageLines(pages, images, i)
    decreases |pages| - i
  {
    if i < |pages| {
      LinesFrom(pages, images, i + 1);
      SplitAllJoin(PagesParts(pages, images, i), PageParts(i + 1, pages[i], images[i]));
      PageSplits(i + 1, pages[i], images[i]);
      ConcatAssoc(SplitAll(PagesParts(pages, images, i)), SplitAll(PageParts(i + 1, pages[i], images[i])),
                  PageLines(pages, images, i + 1));
    }
  }

  // ---------------------------------------------------------------- reading them back

  function Sections(lines: seq<string>): nat {
    if lines == [] then 0 else (if IsSection(lines[0]) then 1 else 0) + Sections(lines[1..])
  }

  lemma {:induction false} SectionsJoin(a: seq<string>, b: seq<string>)
    ensures Sections(a + b) == Sections(a) + Sections(b)
  {
    if a == [] {
      assert a + b == b;
    } else {
      SectionsJoin(a[1..], b);
      assert (a + b)[1..] == a[1..] + b;
    }
  }

  lemma {:induction false} FromSectionSkips(a: seq<string>, b: seq<string>)
    requires Sections(a) == 0
    ensures FromSection(a + b) == FromSection(b)
  {
    if a == [] {
      assert a + b == b;
    } else {
      FromSectionSkips(a[1..], b);
      assert (a + b)[1..] == a[1..] + b;
    }
  }

  lemma {:induction false} ToSectionKeeps(a: seq<string>, b: seq<string>)
    requires Sections(a) == 0
    ensures ToSection(a + b) == a + ToSection(b)
  {
    if a == [] {
      ConcatEmpty(b);
      ConcatEmpty(ToSection(b));
    } else {
      ToSectionKeeps(a[1..], b);
      TailOfConcat(a, b);
      ConcatAssoc([a[0]], a[1..], ToSection(b));
    }
  }

  lemma {:induction false} ParsedSkips(a: seq<string>, b: seq<string>)
    requires Sections(a) == 0
    ensures Parsed(a + b) == Parsed(b)
  {
    FromSectionSkips(a, b);
    FromSectionTwice(a + b);
    FromSectionTwice(b);
  }

  lemma {:induction false} SectionsFrom(lines: seq<string>)
    ensures Sections(FromSection(lines)) == Sections(lines)
  {
    if lines != [] && !IsSection(lines[0]) {
      SectionsFrom(lines[1..]);
    }
  }

  /** The parser returns one page per section title. */
  lemma {:induction false} OnePagePerSection(lines: seq<string>)
    ensures Parsed(lines).Some? ==> |Parsed(lines).value| == Sections(lines)
    decreases |lines|
  {
    var s := FromSection(lines);
    SectionsFrom(lines);
    if s != [] {
      OnePagePerSection(s[1..]);
    }
  }

  /** The lines before the first bare fence. */
  function Head(lines: seq<string>): seq<string> {
    if lines == [] || IsFence(lines[0]) then [] else [lines[0]] + Head(lines[1..])
  }

  lemma {:induction false} ClosedBlock(lines: seq<string>, after: seq<string>)
    ensures BeforeClose(lines + [CLOSE] + after) == Some(Head(lines))
  {
    var all := lines + [CLOSE] + after;
    if lines == [] {
      assert all[0] == CLOSE;
      assert AllSpace(CLOSE[|CLOSE|..]);
    } else {
      ClosedBlock(lines[1..], after);
      assert all[1..] == lines[1..] + [CLOSE] + after;
    }
  }

  lemma {:induction false} FixedLines(image: Option<string>)
    ensures Sections(RULE) == 0 && Sections(Opening(image)) == 0 && Sections([CLOSE]) == 0 && Sections([""]) == 0
  {
    var img := "<img src=\"" + (if image.Some? then image.value else "") + "\" width=\"600\">";
    assert !IsSection("") && !IsSection("---") && !IsSection(FENCE) && !IsSection(CLOSE);
    assert img[0] == '<' && TITLE[0] == '#';
    assert !IsSection(img);
    SectionsOf3("", "---", "");
    SectionsOf1(CLOSE);
    SectionsOf1("");
    if image.Some? {
      SectionsOf3("", img, "");
      SectionsOf1(FENCE);
      SectionsJoin(["", img, ""], [FENCE]);
      assert Opening(image) == ["", img, ""] + [FENCE];
    } else {
      SectionsOf1(FENCE);
      SectionsJoin([""], [FENCE]);
      assert Opening(image) == [""] + [FENCE];
    }
  }

  lemma {:induction false} SectionsOf1(a: string)
    ensures Sections([a]) == if IsSection(a) then 1 else 0
  {
  }

  lemma {:induction false} SectionsOf3(a: string, b: string, c: string)
    requires !IsSection(a) && !IsSection(b) && !IsSection(c)
    ensures Sections([a, b, c]) == 0
  {
    SectionsOf1(a);
    SectionsOf1(b);
    SectionsOf1(c);
    SectionsJoin([a, b], [c]);
    SectionsJoin([a], [b]);
    assert [a, b, c] == [a, b] + [c] && [a, b] == [a] + [b];
  }

  lemma {:induction false} AfterFenceSkips(a: seq<string>, b: seq<string>)
    requires forall k :: 0 <= k < |a| ==> a[k] != FENCE
    ensures AfterFence(a + b) == AfterFence(b)
  {
    if a == [] {
      assert a + b == b;
    } else {
      AfterFenceSkips(a[1..], b);
      assert (a + b)[1..] == a[1..] + b;
    }
  }

  lemma {:induction false} OpenedBlock(image: Option<string>, rest: seq<string>)
    ensures AfterFence(Opening(image) + rest) == Some(rest)
  {
    var before := [""] + if image.Some? then ["<img src=\"" + image.value + "\" width=\"600\">", ""] else [];
    if image.Some? {
      assert before[1][0] == '<' && FENCE[0] == '`';
    }
    AfterFenceSkips(before, [FENCE] + rest);
    assert ([FENCE] + rest)[1..] == rest;
    assert Opening(image) + rest == before + ([FENCE] + rest);
  }

  /** What follows a section title up to the next one. */
  lemma {:induction false} SectionBlock(image: Option<string>, lines: seq<string>, after: seq<string>)
    requires Sections(lines) == 0
    ensures
      var body := Opening(image) + lines + [CLOSE];
      && Sections(body) == 0
      && Block(ToSection(body + after)) == Some(RStrip(Content(Head(lines))))
  {
    var body := Opening(image) + lines + [CLOSE];
    FixedLines(image);
    SectionsJoin(Opening(image) + lines, [CLOSE]);
    SectionsJoin(Opening(image), lines);
    ToSectionKeeps(body, after);
    OpenedBlock(image, lines + [CLOSE] + ToSection(after));
    ClosedBlock(lines, ToSection(after));
    assert body + ToSection(after) == Opening(image) + (lines + [CLOSE] + ToSection(after));
  }

  lemma {:induction false} TitledSection(number: nat, tail: seq<string>)
    requires Block(ToSection(tail)).Some?
    ensures Parsed(RULE + ([TITLE + Decimal.DecimalText(number)] + tail))
         == Prepend([Block(ToSection(tail)).value], Parsed(tail))
  {
    var titled := [TITLE + Decimal.DecimalText(number)] + tail;
    FixedLines(None);
    TitleIsSection(number);
    ParsedSkips(RULE, titled);
    assert titled[1..] == tail;
  }

  /** What one exported page without a section title of its own reads back as. */
  lemma {:induction false} OnePageReadsBack(number: nat, image: Option<string>, lines: seq<string>, after: seq<string>)
    requires Sections(lines) == 0
    ensures Parsed(RULE + [TITLE + Decimal.DecimalText(number)] + Opening(image) + lines + [CLOSE] + after)
         == Prepend([RStrip(Content(Head(lines)))], Parsed(after))
  {
    var body := Opening(image) + lines + [CLOSE];
    SectionBlock(image, lines, after);
    TitledSection(number, body + after);
    ParsedSkips(body, after);
    Regrouped(RULE, [TITLE + Decimal.DecimalText(number)], Opening(image), lines, [CLOSE], after);
  }

  lemma Regrouped<T>(a: seq<T>, b: seq<T>, c: seq<T>, d: seq<T>, e: seq<T>, f: seq<T>)
    ensures a + b + c + d + e + f == a + (b + (c + d + e + f))
  {
    ConcatAssoc(a, b, c + d + e + f);
    ConcatAssoc(a + b, c, d);
    ConcatAssoc(a + b, c + d, e);
    ConcatAssoc(a + b, c + d + e, f);
  }

  /** The pages as they come back. */
  function ReadBack(pages: seq<string>, i: nat): seq<string>
    requires i <= |pages|
    decreases |pages| - i
  {
    if i == |pages| then [] else [RStrip(Content(Head(Split(pages[i]))))] + ReadBack(pages, i + 1)
  }

  lemma {:induction false} PagesReadBack(pages: seq<string>, images: seq<Option<string>>, i: nat)
    requires i <= |pages| == |images|
    requires forall k :: 0 <= k < |pages| ==> Sections(Split(pages[k])) == 0
    ensures Parsed(PageLines(pages, images, i)) == Some(ReadBack(pages, i))
    decreases |pages| - i
  {
    if i < |pages| {
      PagesReadBack(pages, images, i + 1);
      var lines := Split(pages[i]);
      assert Sections(lines) == 0;
      OnePageReadsBack(i + 1, images[i], lines, PageLines(pages, images, i + 1));
    } else {
      LastLine();
    }
  }

  lemma {:induction false} LastLine()
    ensures Parsed([""]) == Some([])
  {
    FixedLines(None);
    ParsedSkips([""], []);
    assert [""] + [] == [""];
  }

  lemma {:induction false} SectionsOfPage(number: nat, image: Option<string>, lines: seq<string>, after: seq<string>)
    ensures Sections(RULE + [TITLE + Decimal.DecimalText(number)] + Opening(image) + lines + [CLOSE] + after)
         == 1 + Sections(lines) + Sections(after)
  {
    var title := [TITLE + Decimal.DecimalText(number)];
    FixedLines(image);
    TitleIsSection(number);
    SectionsOf1(title[0]);
    SectionsJoin(RULE + title + Opening(image) + lines + [CLOSE], after);
    SectionsJoin(RULE + title + Opening(image) + lines, [CLOSE]);
    SectionsJoin(RULE + title + Opening(image), lines);
    SectionsJoin(RULE + title, Opening(image));
    SectionsJoin(RULE, title);
  }

  /** Section titles inside the page texts from page `i` on. */
  function ExtraSections(pages: seq<string>, i: nat): nat
    requires i <= |pages|
    decreases |pages| - i
  {
    if i == |pages| then 0 else Sections(Split(pages[i])) + ExtraSections(pages, i + 1)
  }

  lemma {:induction false} ExtraIsPositive(pages: seq<string>, i: nat, k: nat)
    requires i <= k < |pages| && HasSection(pages[k])
    ensures ExtraSections(pages, i) > 0
    decreases k - i
  {
    if i < k {
      ExtraIsPositive(pages, i + 1, k);
    }
  }

  lemma {:induction false} SectionsOfPages(pages: seq<string>, images: seq<Option<string>>, i: nat)
    requires i <= |pages| == |images|
    ensures Sections(PageLines(pages, images, i)) == |pages| - i + ExtraSections(pages, i)
    decreases |pages| - i
  {
    if i < |pages| {
      SectionsOfPages(pages, images, i + 1);
      SectionsOfPage(i + 1, images[i], Split(pages[i]), PageLines(pages, images, i + 1));
    } else {
      FixedLines(None);
    }
  }

  // ---------------------------------------------------------------- when a page comes back

  function Ticks(s: string): nat {
    if s == "" then 0 else Ticks(s[..|s| - 1]) + if s[|s| - 1] == '`' then 1 else 0
  }

  lemma {:induction false} TicksJoin(a: string, b: string)
    ensures Ticks(a + b) == Ticks(a) + Ticks(b)
  {
    if b == "" {
      assert a + b == a;
    } else {
      TicksJoin(a, b[..|b| - 1]);
      assert (a + b)[..|a + b| - 1] == a + b[..|b| - 1];
    }
  }

  lemma {:induction false} TicksOfStripped(s: string)
    ensures Ticks(RStrip(s)) == Ticks(s)
  {
    if s != "" && s[|s| - 1] == '\n' {
      TicksOfStripped(s[..|s| - 1]);
    }
  }

  lemma {:induction false} FenceHasTicks(line: string)
    requires IsFence(line)
    ensures Ticks(line) > 0
  {
    assert line == CLOSE + line[|CLOSE|..];
    TicksJoin(CLOSE, line[|CLOSE|..]);
    assert CLOSE == "```" + "`";
    TicksJoin("```", "`");
    assert Ticks("`") == Ticks("") + 1;
  }

  lemma {:induction false} HeadLosesTicks(lines: seq<string>)
    ensures Ticks(Content(Head(lines))) <= Ticks(Content(lines))
    ensures (exists k :: 0 <= k < |lines| && IsFence(lines[k])) ==> Ticks(Content(Head(lines))) < Ticks(Content(lines))
  {
    if lines != [] {
      TicksJoin(lines[0] + "\n", Content(lines[1..]));
      TicksJoin(lines[0], "\n");
      if IsFence(lines[0]) {
        FenceHasTicks(lines[0]);
      } else {
        HeadLosesTicks(lines[1..]);
        assert forall k :: 1 <= k < |lines| ==> lines[k] == lines[1..][k - 1];
        TicksJoin(lines[0] + "\n", Content(Head(lines[1..])));
        assert ([lines[0]] + Head(lines[1..]))[1..] == Head(lines[1..]);
      }
    }
  }

  lemma {:induction false} FencelessHead(lines: seq<string>)
    requires forall k :: 0 <= k < |lines| ==> !IsFence(lines[k])
    ensures Head(lines) == lines
  {
    if lines != [] {
      FencelessHead(lines[1..]);
      assert lines == [lines[0]] + lines[1..];
    }
  }

  lemma {:induction false} ContentOfSplit(s: string)
    ensures Content(Split(s)) == s + "\n"
  {
    if s == "" {
      assert Content([""]) == "" + "\n" + Content([]);
    } else {
      ContentOfSplit(s[1..]);
      var rest := Split(s[1..]);
      if s[0] == '\n' {
        assert ([""] + rest)[1..] == rest;
      } else {
        var first := [s[0]] + rest[0];
        assert ([first] + rest[1..])[1..] == rest[1..];
        assert Content(rest) == rest[0] + "\n" + Content(rest[1..]);
        assert first + "\n" + Content(rest[1..]) == [s[0]] + (rest[0] + "\n" + Content(rest[1..]));
      }
    }
  }

  predicate HasFence(page: string) {
    exists k :: 0 <= k < |Split(page)| && IsFence(Split(page)[k])
  }

  predicate HasSection(page: string) {
    Sections(Split(page)) > 0
  }

  lemma {:induction false} PageComesBack(page: string)
    ensures RStrip(Content(Head(Split(page)))) == RStrip(page) <==> !HasFence(page)
  {
    var lines := Split(page);
    ContentOfSplit(page);
    HeadLosesTicks(lines);
    assert RStrip(page + "\n") == RStrip(page) by {
      assert (page + "\n")[..|page|] == page;
    }
    if HasFence(page) {
      TicksOfStripped(Content(Head(lines)));
      TicksOfStripped(Content(lines));
    } else {
      FencelessHead(lines);
    }
  }

  function Stripped(pages: seq<string>, i: nat): seq<string>
    requires i <= |pages|
    decreases |pages| - i
  {
    if i == |pages| then [] else [RStrip(pages[i])] + Stripped(pages, i + 1)
  }

  lemma SameList<T>(a: T, x: seq<T>, b: T, y: seq<T>)
    ensures [a] + x == [b] + y <==> a == b && x == y
  {
    assert ([a] + x)[1..] == x && ([b] + y)[1..] == y && ([a] + x)[0] == a && ([b] + y)[0] == b;
  }

  lemma {:induction false} PagesComeBack(pages: seq<string>, i: nat)
    requires i <= |pages|
    ensures ReadBack(pages, i) == Stripped(pages, i) <==> Fenceless(pages, i)
    decreases |pages| - i
  {
    if i < |pages| {
      PagesComeBack(pages, i + 1);
      PageComesBack(pages[i]);
      var back, page := RStrip(Content(Head(Split(pages[i])))), RStrip(pages[i]);
      assert ReadBack(pages, i) == [back] + ReadBack(pages, i + 1);
      assert Stripped(pages, i) == [page] + Stripped(pages, i + 1);
      SameList(back, ReadBack(pages, i + 1), page, Stripped(pages, i + 1));
    }
  }

  lemma {:induction false} StrippedLength(pages: seq<string>, i: nat)
    requires i <= |pages|
    ensures |Stripped(pages, i)| == |pages| - i
    decreases |pages| - i
  {
    if i < |pages| {
      StrippedLength(pages, i + 1);
    }
  }

  predicate Fenceless(pages: seq<string>, i: nat)
    requires i <= |pages|
    decreases |pages| - i
  {
    i == |pages| || (!HasFence(pages[i]) && Fenceless(pages, i + 1))
  }

  lemma {:induction false} FencelessPages(pages: seq<string>, i: nat)
    requires i <= |pages|
    ensures Fenceless(pages, i) <==> forall k :: i <= k < |pages| ==> !HasFence(pages[k])
    decreases |pages| - i
  {
    if i < |pages| {
      FencelessPages(pages, i + 1);
    }
  }

  lemma {:induction false} HeaderHasNoSection(id: string, source: string, instructions: string)
    ensures Sections(Header(id, source, instructions)) == 0
  {
    assert ("# " + id)[1] == ' ' && TITLE[1] == '#';
    assert ("Nguồn: " + source)[0] == 'N' && ("Sửa " + instructions)[0] == 'S' && TITLE[0] == '#';
    SectionsOf3("# " + id, "", "Nguồn: " + source);
    SectionsOf1("");
    SectionsOf1("Sửa " + instructions);
    SectionsJoin([""], ["Sửa " + instructions]);
    SectionsJoin(["# " + id, "", "Nguồn: " + source], ["", "Sửa " + instructions]);
    assert ["", "Sửa " + instructions] == [""] + ["Sửa " + instructions];
    assert Header(id, source, instructions) == ["# " + id, "", "Nguồn: " + source] + ["", "Sửa " + instructions];
  }

  /** Main result: importing an exported file returns every page, trailing line breaks removed, exactly
      when no page has a line that reads as a section title or as a bare fence. */
  lemma {:induction false} RoundTripExactlyWhenPlain(
    id: string, source: string, instructions: string, pages: seq<string>, images: seq<Option<string>>)
    requires |pages| == |images| && OneLine(id) && OneLine(source) && OneLine(instructions) && PlainImages(images)
    ensures Parsed(Split(Exported(id, source, instructions, pages, images))) == Some(Stripped(pages, 0))
       <==> forall k :: 0 <= k < |pages| ==> !HasSection(pages[k]) && !HasFence(pages[k])
  {
    var header, lines := Header(id, source, instructions), PageLines(pages, images, 0);
    ExportedLines(id, source, instructions, pages, images);
    HeaderHasNoSection(id, source, instructions);
    ParsedSkips(header, lines);
    PagesComeBack(pages, 0);
    FencelessPages(pages, 0);
    StrippedLength(pages, 0);
    if forall k :: 0 <= k < |pages| ==> !HasSection(pages[k]) {
      PagesReadBack(pages, images, 0);
    } else {
      var k :| 0 <= k < |pages| && HasSection(pages[k]);
      ExtraIsPositive(pages, 0, k);
      SectionsOfPages(pages, images, 0);
      OnePagePerSection(lines);
    }
  }

  // ---------------------------------------------------------------- the file format in its own text

  ghost predicate ReadsAsTitle(line: string, digits: string, tail: string) {
    line == "## Trang " + digits + tail && digits != "" && Decimal.AllDigits(digits) && AllSpace(tail)
  }

  ghost predicate ReadsAsFence(line: string, tail: string) {
    line == "````" + tail && AllSpace(tail)
  }

  /** A section title is "## Trang ", digits and white space; a bare fence four backticks and white space. */
  lemma {:induction false} PatternsOfText(line: string)
    ensures IsSection(line) <==> exists digits, tail :: ReadsAsTitle(line, digits, tail)
    ensures IsFence(line) <==> exists tail :: ReadsAsFence(line, tail)
  {
    TitlesOfText(line);
    if IsFence(line) {
      assert line == "````" + line[4..];
      assert ReadsAsFence(line, line[4..]);
    }
    if tail :| ReadsAsFence(line, tail) {
      assert line[4..] == tail;
    }
  }

  lemma {:induction false} TitlesOfText(line: string)
    ensures IsSection(line) <==> exists digits, tail :: ReadsAsTitle(line, digits, tail)
  {
    if IsSection(line) {
      var k :| 9 < k <= |line| && Decimal.AllDigits(line[9..k]) && AllSpace(line[k..]);
      assert line == "## Trang " + line[9..k] + line[k..];
      assert ReadsAsTitle(line, line[9..k], line[k..]);
    }
    if digits, tail :| ReadsAsTitle(line, digits, tail) {
      var k := 9 + |digits|;
      assert line[9..k] == digits && line[k..] == tail;
    }
  }

  /** How the file looks: its head, and each page under a rule and a title, its image if any, between fences. */
  lemma {:induction false} FileInLines(id: string, source: string, instructions: string, page: string, image: string)
    ensures Header(id, source, instructions) == ["# " + id, "", "Nguồn: " + source, "", "Sửa " + instructions]
    ensures PageParts(12, page, None) == ["", "---", "", "## Trang 12", "", "````text", page, "````"]
    ensures PageParts(3, page, Some(image))
         == ["", "---", "", "## Trang 3", "", "<img src=\"" + image + "\" width=\"600\">", "", "````text", page, "````"]
  {
    assert Decimal.DecimalText(12) == Decimal.DecimalText(1) + "2" == "12";
    assert TITLE + Decimal.DecimalText(12) == "## Trang 12" && TITLE + Decimal.DecimalText(3) == "## Trang 3";
  }

  // ---------------------------------------------------------------- when an import fails

  /** The first section title from line k on, or the end. */
  function NextTitle(lines: seq<string>, k: nat): (e: nat)
    requires k <= |lines|
    ensures k <= e <= |lines| && forall i :: k <= i < e ==> !IsSection(lines[i])
    ensures e < |lines| ==> IsSection(lines[e])
    decreases |lines| - k
  {
    if k == |lines| || IsSection(lines[k]) then k else NextTitle(lines, k + 1)
  }

  lemma {:induction false} ToNextTitle(lines: seq<string>, k: nat)
    requires k <= |lines|
    ensures ToSection(lines[k..]) == lines[k..NextTitle(lines, k)]
    decreases |lines| - k
  {
    if k < |lines| && !IsSection(lines[k]) {
      ToNextTitle(lines, k + 1);
      assert lines[k..][1..] == lines[k + 1..];
      assert lines[k..NextTitle(lines, k)] == [lines[k]] + lines[k + 1..NextTitle(lines, k)];
    }
  }

  lemma {:induction false} FirstOpening(lines: seq<string>, k: nat, e: nat) returns (i: nat)
    requires k <= e <= |lines|
    ensures k <= i <= e && forall x :: k <= x < i ==> lines[x] != "````text"
    ensures i < e ==> lines[i] == "````text"
    ensures AfterFence(lines[k..e]) == if i < e then Some(lines[i + 1..e]) else None
    decreases e - k
  {
    i := k;
    if k < e && lines[k] != FENCE {
      i := FirstOpening(lines, k + 1, e);
    }
    assert k < e ==> lines[k..e][1..] == lines[k + 1..e];
  }

  lemma {:induction false} FirstClosing(lines: seq<string>, k: nat, e: nat) returns (j: nat)
    requires k <= e <= |lines|
    ensures k <= j <= e && forall x :: k <= x < j ==> !IsFence(lines[x])
    ensures j < e ==> IsFence(lines[j])
    ensures BeforeClose(lines[k..e]) == if j < e then Some(lines[k..j]) else None
    decreases e - k
  {
    j := k;
    if k < e && !IsFence(lines[k]) {
      j := FirstClosing(lines, k + 1, e);
      assert lines[k..e][1..] == lines[k + 1..e];
      assert j < e ==> lines[k..j] == [lines[k]] + lines[k + 1..j];
    }
  }

  /** After line k, before the next section title, a fence is opened at line i and closed at line j. */
  ghost predicate HasBlock(lines: seq<string>, k: nat, i: nat, j: nat) {
    && k < i < j < |lines| && lines[i] == "````text" && IsFence(lines[j])
    && forall x :: k < x <= j ==> !IsSection(lines[x])
  }

  lemma {:induction false} BlockOfLines(lines: seq<string>, k: nat)
    requires k < |lines|
    ensures Block(ToSection(lines[k + 1..])).Some? <==> exists i, j :: HasBlock(lines, k, i, j)
  {
    var e := NextTitle(lines, k + 1);
    ToNextTitle(lines, k + 1);
    var i := FirstOpening(lines, k + 1, e);
    if i < e {
      var j := FirstClosing(lines, i + 1, e);
      if j < e {
        assert HasBlock(lines, k, i, j);
      }
    }
  }

  lemma {:induction false} ParsedFrom(lines: seq<string>, k: nat)
    requires k < |lines|
    ensures Parsed(lines[k..]).Some? <==>
      Parsed(lines[k + 1..]).Some? && (IsSection(lines[k]) ==> Block(ToSection(lines[k + 1..])).Some?)
  {
    assert lines[k..][1..] == lines[k + 1..];
  }

  /** An import succeeds exactly when every section title is followed, before the next one, by an opened and closed
      fence. */
  lemma {:induction false} ImportSucceeds(lines: seq<string>, k: nat)
    requires k <= |lines|
    ensures Parsed(lines[k..]).Some?
       <==> forall t :: k <= t < |lines| && IsSection(lines[t]) ==> exists i, j :: HasBlock(lines, t, i, j)
    decreases |lines| - k
  {
    if k < |lines| {
      ImportSucceeds(lines, k + 1);
      ParsedFrom(lines, k);
      BlockOfLines(lines, k);
    }
  }
}
