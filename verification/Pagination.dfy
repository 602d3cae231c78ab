/** Greedy packing of paragraphs into pages (ai-service/fixtures/full_contract.py, `_paginate`).

    The paragraphs are the stripped, non-empty pieces between blank lines. */
module Pagination {

  const GAP := "\n\n"

  /** A page holds its paragraphs separated by blank lines. */
  function PageText(group: seq<string>): string {
    if group == [] then ""
    else if |group| == 1 then group[0]
    else PageText(group[..|group| - 1]) + GAP + group[|group| - 1]
  }

  /** Length of the page that paragraphs i..j would make. */
  function Len(parts: seq<string>, i: nat, j: nat): int
    requires i < j <= |parts|
  {
    if j == i + 1 then |parts[i]| else Len(parts, i, j - 1) + 2 + |parts[j - 1]|
  }

  lemma {:induction false} LenIsLength(parts: seq<string>, i: nat, j: nat)
    requires i < j <= |parts|
    ensures |PageText(parts[i..j])| == Len(parts, i, j)
  {
    if j > i + 1 {
      LenIsLength(parts, i, j - 1);
      assert parts[i..j][..j - i - 1] == parts[i..j - 1];
    }
  }

  lemma {:induction false} LongerPage(parts: seq<string>, a: nat, i: nat, j: nat, b: nat)
    requires a <= i < j <= b <= |parts|
    ensures Len(parts, i, j) <= Len(parts, a, b)
    decreases b - a
  {
    if j < b {
      LongerPage(parts, a, i, j, b - 1);
    } else if a < i {
      LaterStart(parts, a, b);
      LongerPage(parts, a + 1, i, j, b);
    }
  }

  lemma {:induction false} LaterStart(parts: seq<string>, a: nat, b: nat)
    requires a + 1 < b <= |parts|
    ensures Len(parts, a + 1, b) <= Len(parts, a, b)
  {
    if a + 2 < b {
      LaterStart(parts, a, b - 1);
    }
  }

  // ---------------------------------------------------------------- the greedy pages

  /** Where the page that started at `i` and reached `j` ends. */
  function Fill(parts: seq<string>, i: nat, j: nat, size: int): (e: nat)
    requires i < j <= |parts|
    ensures j <= e <= |parts|
    ensures e > j ==> Len(parts, i, e) <= size
    decreases |parts| - j
  {
    if j == |parts| || Len(parts, i, j) + |parts[j]| + 2 > size then j else Fill(parts, i, j + 1, size)
  }

  function PagesFrom(parts: seq<string>, i: nat, size: int): seq<seq<string>>
    requires i <= |parts|
    decreases |parts| - i
  {
    if i == |parts| then []
    else
      var e := Fill(parts, i, i + 1, size);
      [parts[i..e]] + PagesFrom(parts, e, size)
  }

  function Texts(groups: seq<seq<string>>): seq<string> {
    if groups == [] then [] else [PageText(groups[0])] + Texts(groups[1..])
  }

  /** The texts still to come when the open page is start..k. */
  ghost function Rest(parts: seq<string>, start: nat, k: nat, size: int): seq<string>
    requires start < k <= |parts|
  {
    var e := Fill(parts, start, k, size);
    [PageText(parts[start..e])] + Texts(PagesFrom(parts, e, size))
  }

  lemma {:induction false} TextsFrom(parts: seq<string>, k: nat, size: int)
    requires k < |parts|
    ensures Texts(PagesFrom(parts, k, size)) == Rest(parts, k, k + 1, size)
  {
  }

  lemma {:induction false} RestStep(parts: seq<string>, start: nat, k: nat, size: int)
    requires start < k < |parts|
    ensures Rest(parts, start, k, size)
         == if Len(parts, start, k) + |parts[k]| + 2 > size
            then [PageText(parts[start..k])] + Rest(parts, k, k + 1, size)
            else Rest(parts, start, k + 1, size)
  {
  }

  lemma {:induction false} PageGrows(parts: seq<string>, start: nat, k: nat)
    requires start < k < |parts|
    ensures PageText(parts[start..k + 1]) == PageText(parts[start..k]) + GAP + parts[k]
  {
    assert parts[start..k + 1][..k - start] == parts[start..k];
  }

  lemma {:induction false} PageOfOne(parts: seq<string>, k: nat)
    requires k < |parts|
    ensures PageText(parts[k..k + 1]) == parts[k]
  {
  }

  /** `buf` is the open page start..k, and the closed pages with the rest make `all`. */
  ghost predicate Packed(
    parts: seq<string>, size: int, pages: seq<string>, buf: string, start: nat, k: nat, all: seq<string>)
  {
    && start < k <= |parts| && buf != "" && buf == PageText(parts[start..k])
    && pages + Rest(parts, start, k, size) == all
  }

  lemma {:induction false} PackedStep(
    parts: seq<string>, size: int, pages: seq<string>, buf: string, start: nat, k: nat, all: seq<string>)
    requires Packed(parts, size, pages, buf, start, k, all) && k < |parts| && parts[k] != ""
    ensures if |buf| + |parts[k]| + 2 > size
            then Packed(parts, size, pages + [buf], parts[k], k, k + 1, all)
            else Packed(parts, size, pages, buf + GAP + parts[k], start, k + 1, all)
  {
    LenIsLength(parts, start, k);
    RestStep(parts, start, k, size);
    if |buf| + |parts[k]| + 2 > size {
      PageOfOne(parts, k);
      assert pages + ([buf] + Rest(parts, k, k + 1, size)) == (pages + [buf]) + Rest(parts, k, k + 1, size);
    } else {
      PageGrows(parts, start, k);
    }
  }

  /** Packs paragraph by paragraph into `buf`, closing a page when the next one does not fit. */
  method Paginate(parts: seq<string>, size: int) returns (pages: seq<string>)
    requires forall k :: 0 <= k < |parts| ==> parts[k] != ""
    ensures pages == Texts(PagesFrom(parts, 0, size))
  {
    pages := [];
    var buf := "";
    ghost var start, all := 0, Texts(PagesFrom(parts, 0, size));
    for k := 0 to |parts|
      invariant if k == 0 then pages == [] && buf == "" && start == 0
        else Packed(parts, size, pages, buf, start, k, all)
    {
      if k > 0 {
        PackedStep(parts, size, pages, buf, start, k, all);
      } else {
        TextsFrom(parts, 0, size);
        PageOfOne(parts, 0);
      }
      if buf != "" && |buf| + |parts[k]| + 2 > size {
        pages := pages + [buf];
        buf, start := parts[k], k;
      } else {
        buf := if buf != "" then buf + GAP + parts[k] else parts[k];
      }
    }
    if buf != "" {
      pages := pages + [buf];
    }
  }

  // ---------------------------------------------------------------- what a page list must satisfy

  function Flatten(groups: seq<seq<string>>): seq<string> {
    if groups == [] then [] else groups[0] + Flatten(groups[1..])
  }

  /** Every page is non-empty and within the size, or is a single paragraph. */
  ghost predicate Allowed(groups: seq<seq<string>>, size: int) {
    forall g :: 0 <= g < |groups| ==> groups[g] != [] && (|groups[g]| == 1 || |PageText(groups[g])| <= size)
  }

  /** The greedy pages hold all paragraphs in order, and each is allowed. */
  lemma {:induction false} GreedyIsAllowed(parts: seq<string>, i: nat, size: int)
    requires i <= |parts|
    ensures Flatten(PagesFrom(parts, i, size)) == parts[i..]
    ensures Allowed(PagesFrom(parts, i, size), size)
    decreases |parts| - i
  {
    if i < |parts| {
      var e := Fill(parts, i, i + 1, size);
      GreedyIsAllowed(parts, e, size);
      LenIsLength(parts, i, e);
      assert ([parts[i..e]] + PagesFrom(parts, e, size))[1..] == PagesFrom(parts, e, size);
      assert parts[i..] == parts[i..e] + parts[e..];
    }
  }

  lemma {:induction false} FillReaches(parts: seq<string>, i: nat, j: nat, m: nat, size: int)
    requires i < j <= m <= |parts|
    requires m == i + 1 || Len(parts, i, m) <= size
    ensures m <= Fill(parts, i, j, size)
    decreases m - j
  {
    if j < m {
      LongerPage(parts, i, i, j + 1, m);
      FillReaches(parts, i, j + 1, m, size);
    }
  }

  /** Starting later never takes more pages. */
  lemma {:induction false} LaterNeedsNoMore(parts: seq<string>, i: nat, j: nat, size: int)
    requires i <= j <= |parts|
    ensures |PagesFrom(parts, j, size)| <= |PagesFrom(parts, i, size)|
    decreases |parts| - i, j - i
  {
    if i + 1 < j {
      LaterNeedsNoMore(parts, i, i + 1, size);
      LaterNeedsNoMore(parts, i + 1, j, size);
    } else if i + 1 == j {
      var e := Fill(parts, i, i + 1, size);
      if e > j {
        LaterStart(parts, i, e);
        FillReaches(parts, j, j + 1, e, size);
        LaterNeedsNoMore(parts, e, Fill(parts, j, j + 1, size), size);
      }
    }
  }

  /** Main result: no ordered way of paging the paragraphs under the same rule uses fewer pages. */
  lemma {:induction false} GreedyIsMinimal(parts: seq<string>, i: nat, size: int, other: seq<seq<string>>)
    requires i <= |parts|
    requires Flatten(other) == parts[i..] && Allowed(other, size)
    ensures |PagesFrom(parts, i, size)| <= |other|
    decreases |other|
  {
    if other == [] {
      assert |parts[i..]| == 0;
    } else {
      var m := i + |other[0]|;
      assert other[0] == parts[i..][..|other[0]|] == parts[i..m];
      assert Flatten(other[1..]) == parts[i..][|other[0]|..] == parts[m..];
      forall g | 0 <= g < |other[1..]|
        ensures other[1..][g] != [] && (|other[1..][g]| == 1 || |PageText(other[1..][g])| <= size)
      {
        assert other[1..][g] == other[g + 1];
      }
      GreedyIsMinimal(parts, m, size, other[1..]);
      LenIsLength(parts, i, m);
      FillReaches(parts, i, i + 1, m, size);
      LaterNeedsNoMore(parts, m, Fill(parts, i, i + 1, size), size);
    }
  }
}
