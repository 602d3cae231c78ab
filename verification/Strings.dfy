/** Text: splitting at a separator as `str.split` does, white space as `str.strip` sees it, and text order. */
module Strings {

  function SplitOn(s: string, sep: char): (pieces: seq<string>)
    ensures pieces != []
  {
    if s == "" then [""]
    else
      var rest := SplitOn(s[1..], sep);
      if s[0] == sep then [""] + rest else [[s[0]] + rest[0]] + rest[1..]
  }

  predicate Lacks(s: string, c: char) {
    forall i :: 0 <= i < |s| ==> s[i] != c
  }

  lemma {:induction false} SplitFirst(s: string, sep: char)
    requires s != ""
    ensures var rest := SplitOn(s[1..], sep);
      SplitOn(s, sep) == if s[0] == sep then [""] + rest else [[s[0]] + rest[0]] + rest[1..]
  {
  }

  lemma {:induction false} SplitAtSeparator(a: string, b: string, sep: char)
    ensures SplitOn(a + [sep] + b, sep) == SplitOn(a, sep) + SplitOn(b, sep)
  {
    var s := a + [sep] + b;
    SplitFirst(s, sep);
    if a == "" {
      assert s[1..] == b;
    } else {
      assert s[1..] == a[1..] + [sep] + b;
      SplitAtSeparator(a[1..], b, sep);
      SplitFirst(a, sep);
    }
  }

  lemma {:induction false} SplitWithoutSeparator(s: string, sep: char)
    requires Lacks(s, sep)
    ensures SplitOn(s, sep) == [s]
  {
    if s != "" {
      SplitWithoutSeparator(s[1..], sep);
      assert s == [s[0]] + s[1..];
    }
  }

  // ---------------------------------------------------------------- white space

  predicate IsSpace(c: char) {
    || c == ' ' || c == '\t' || c == '\n' || c == '\r' || c == '\U{0B}' || c == '\U{0C}'
    || '\U{1C}' <= c <= '\U{1F}' || c == '\U{85}' || c == '\U{A0}' || c == '\U{1680}'
    || '\U{2000}' <= c <= '\U{200A}' || c == '\U{2028}' || c == '\U{2029}' || c == '\U{202F}'
    || c == '\U{205F}' || c == '\U{3000}'
  }

  predicate AllSpace(s: string) {
    forall i :: 0 <= i < |s| ==> IsSpace(s[i])
  }

  function StripLeft(s: string): (r: string)
    ensures r == "" <==> AllSpace(s)
    ensures r != "" ==> !IsSpace(r[0])
  {
    if s != "" && IsSpace(s[0]) then StripLeft(s[1..]) else s
  }

  function StripRight(s: string): (r: string)
    ensures r == "" <==> AllSpace(s)
  {
    if s != "" && IsSpace(s[|s| - 1]) then StripRight(s[..|s| - 1]) else s
  }

  function Strip(s: string): (r: string)
    ensures r == "" <==> AllSpace(s)
  {
    StripRight(StripLeft(s))
  }

  // ---------------------------------------------------------------- text order

  /** Text order, character by character. */
  predicate Before(a: string, b: string) {
    a == "" || (b != "" && (a[0] < b[0] || (a[0] == b[0] && Before(a[1..], b[1..]))))
  }

  lemma {:induction false} BeforeIsTotal(a: string, b: string)
    ensures Before(a, b) || Before(b, a)
  {
    if a != "" && b != "" && a[0] == b[0] {
      BeforeIsTotal(a[1..], b[1..]);
    }
  }

  lemma {:induction false} BeforeIsTransitive(a: string, b: string, c: string)
    requires Before(a, b) && Before(b, c)
    ensures Before(a, c)
  {
    if a != "" && b != "" && c != "" && a[0] == b[0] == c[0] {
      BeforeIsTransitive(a[1..], b[1..], c[1..]);
    }
  }

  lemma {:induction false} BeforeIsAntisymmetric(a: string, b: string)
    requires Before(a, b) && Before(b, a)
    ensures a == b
  {
    if a != "" && b != "" {
      BeforeIsAntisymmetric(a[1..], b[1..]);
      assert a == [a[0]] + a[1..] && b == [b[0]] + b[1..];
    }
  }

  lemma {:induction false} NotBefore(a: string, b: string)
    requires Before(a, b) && a != b
    ensures !Before(b, a)
  {
    if Before(b, a) {
      BeforeIsAntisymmetric(a, b);
    }
  }

  // ---------------------------------------------------------------- what the functions mean

  /** The pieces, each behind the separator but the first. */
  function Rejoined(pieces: seq<string>, sep: char): string
    requires pieces != []
  {
    if |pieces| == 1 then pieces[0] else pieces[0] + [sep] + Rejoined(pieces[1..], sep)
  }

  /** Splitting is undone by joining, and no piece holds the separator. */
  lemma {:induction false} SplitRejoins(s: string, sep: char)
    ensures Rejoined(SplitOn(s, sep), sep) == s
    ensures forall i :: 0 <= i < |SplitOn(s, sep)| ==> Lacks(SplitOn(s, sep)[i], sep)
  {
    if s != "" {
      var rest := SplitOn(s[1..], sep);
      SplitRejoins(s[1..], sep);
      SplitFirst(s, sep);
      if s[0] == sep {
        assert ([""] + rest)[1..] == rest;
        assert "" + [sep] + s[1..] == s;
      } else {
        HeadRejoins([s[0]], rest, sep);
        assert [s[0]] + s[1..] == s;
      }
    }
  }

  lemma {:induction false} HeadRejoins(p: string, pieces: seq<string>, sep: char)
    requires pieces != []
    ensures Rejoined([p + pieces[0]] + pieces[1..], sep) == p + Rejoined(pieces, sep)
  {
    assert ([p + pieces[0]] + pieces[1..])[1..] == pieces[1..];
    if |pieces| > 1 {
      var tail := Rejoined(pieces[1..], sep);
      assert p + pieces[0] + [sep] + tail == p + (pieces[0] + [sep] + tail);
    }
  }

  /** White space as `str.isspace` knows it, by code point. */
  lemma SpacesByCodePoint(c: char)
    ensures IsSpace(c) <==>
      var n := c as int;
      9 <= n <= 13 || 28 <= n <= 32 || 8192 <= n <= 8202
      || n in {133, 160, 5760, 8232, 8233, 8239, 8287, 12288}
  {
  }

  /** Stripping takes off white space at both ends and nothing else. */
  lemma {:induction false} StripTakesSpace(s: string) returns (before: string, after: string)
    ensures s == before + Strip(s) + after && AllSpace(before) && AllSpace(after)
    ensures Strip(s) != "" ==> !IsSpace(Strip(s)[0]) && !IsSpace(Strip(s)[|Strip(s)| - 1])
  {
    before := LeftSpace(s);
    after := RightSpace(StripLeft(s));
    var left, core := StripLeft(s), Strip(s);
    assert before + (core + after) == before + core + after;
    assert core != "" ==> core[0] == left[0];
  }

  lemma {:induction false} LeftSpace(s: string) returns (before: string)
    ensures s == before + StripLeft(s) && AllSpace(before)
  {
    before := "";
    if s != "" && IsSpace(s[0]) {
      before := LeftSpace(s[1..]);
      assert s == [s[0]] + s[1..];
      before := [s[0]] + before;
    }
  }

  lemma {:induction false} RightSpace(s: string) returns (after: string)
    ensures s == StripRight(s) + after && AllSpace(after)
    ensures StripRight(s) != "" ==> !IsSpace(StripRight(s)[|StripRight(s)| - 1])
  {
    after := "";
    if s != "" && IsSpace(s[|s| - 1]) {
      after := RightSpace(s[..|s| - 1]);
      assert s == s[..|s| - 1] + [s[|s| - 1]];
      after := after + [s[|s| - 1]];
    }
  }

  /** The first place where two texts differ decides their order; a beginning comes first. */
  lemma {:induction false} OrderOfTexts(a: string, b: string)
    ensures Before(a, b) <==> a <= b || exists k: nat :: FirstSmaller(a, b, k)
  {
    if a != "" && b != "" && a[0] == b[0] {
      OrderOfTexts(a[1..], b[1..]);
      assert a <= b <==> a[1..] <= b[1..];
      if k: nat :| FirstSmaller(a, b, k) {
        SmallerInTail(a, b, k - 1);
      }
      if k: nat :| FirstSmaller(a[1..], b[1..], k) {
        SmallerInTail(a, b, k);
      }
    } else if a != "" && b != "" && a[0] < b[0] {
      assert FirstSmaller(a, b, 0);
    }
  }

  lemma {:induction false} SmallerInTail(a: string, b: string, k: nat)
    requires a != "" && b != "" && a[0] == b[0]
    ensures FirstSmaller(a, b, k + 1) <==> FirstSmaller(a[1..], b[1..], k)
  {
    if k + 1 < |a| && k + 1 < |b| {
      assert a[..k + 1] == [a[0]] + a[1..][..k] && b[..k + 1] == [b[0]] + b[1..][..k];
      assert a[..k + 1][1..] == a[1..][..k] && b[..k + 1][1..] == b[1..][..k];
    }
  }

  predicate FirstSmaller(a: string, b: string, k: nat) {
    k < |a| && k < |b| && a[..k] == b[..k] && a[k] < b[k]
  }
}
