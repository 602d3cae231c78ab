/** Joining lines that were wrapped in the middle of a sentence (evals/contract_graph/normalize.py).

    `lower` tells the lower-case characters; no digit is one. */
module HardWraps {
  import opened Basics
  import opened Decimal
  import opened Strings

  // ---------------------------------------------------------------- where a line ends for good

  predicate Terminated(line: string) {
    line != "" && line[|line| - 1] in {'.', ';', ':'}
  }

  /** A small letter. */
  predicate IsLetter(c: char) {
    'a' <= c <= 'z' || c == 'đ'
  }

  /** A point label: a letter, digits, a closing parenthesis. */
  predicate PointLabel(line: string) {
    line != "" && IsLetter(line[0]) && exists k :: 1 <= k < |line| && AllDigits(line[1..k]) && line[k] == ')'
  }

  /** A clause label: digits, perhaps a letter, a full stop, then white space, a bracket or nothing. */
  predicate ClauseLabel(line: string) {
    exists k :: 1 <= k < |line| && AllDigits(line[..k]) && FullStopAt(line, if IsLetter(line[k]) then k + 1 else k)
  }

  predicate FullStopAt(line: string, k: nat) {
    k < |line| && line[k] == '.' && (k + 1 == |line| || IsSpace(line[k + 1]) || line[k + 1] == '[')
  }

  /** The line goes on from the one before it. */
  predicate Continues(lower: char -> bool, before: string, line: string) {
    line != "" && !Terminated(before) && lower(line[0]) && !PointLabel(line) && !ClauseLabel(line)
  }

  // ---------------------------------------------------------------- joining

  predicate NoneEmpty(lines: seq<string>) {
    forall i :: 0 <= i < |lines| ==> lines[i] != ""
  }

  /** One line of the result: the source lines first..last joined by blanks. */
  function Stretch(lines: seq<string>, first: nat, last: nat): (s: string)
    requires first <= last < |lines|
    ensures NoneEmpty(lines) ==> s != ""
    decreases last
  {
    if first == last then lines[first] else Stretch(lines, first, last - 1) + " " + lines[last]
  }

  /** Where the stretch that ends at `last` begins: judged by neighbouring source lines alone. */
  function Begin(lower: char -> bool, lines: seq<string>, last: nat): (b: nat)
    requires last < |lines|
    ensures b <= last
  {
    if last > 0 && Continues(lower, lines[last - 1], lines[last]) then Begin(lower, lines, last - 1) else last
  }

  function Joined(lower: char -> bool, lines: seq<string>, upTo: nat): seq<string>
    requires upTo <= |lines|
    decreases upTo
  {
    if upTo == 0 then []
    else
      var b := Begin(lower, lines, upTo - 1);
      Joined(lower, lines, b) + [Stretch(lines, b, upTo - 1)]
  }

  lemma {:induction false} StretchEnd(lines: seq<string>, first: nat, last: nat)
    requires first <= last < |lines| && lines[last] != ""
    ensures var s := Stretch(lines, first, last);
      s != "" && s[|s| - 1] == lines[last][|lines[last]| - 1]
  {
  }

  /** What the next source line does to the result so far. */
  function WithLine(lower: char -> bool, out: seq<string>, line: string): seq<string> {
    if out != [] && Continues(lower, out[|out| - 1], line) then out[..|out| - 1] + [out[|out| - 1] + " " + line]
    else out + [line]
  }

  lemma SameEnd(lower: char -> bool, before: string, other: string, line: string)
    requires Terminated(before) == Terminated(other)
    ensures Continues(lower, before, line) == Continues(lower, other, line)
  {
  }

  /** A longer last line of the result continues exactly when the source line it ends with does. */
  lemma {:induction false} StretchContinues(
    lower: char -> bool, lines: seq<string>, first: nat, last: nat, line: string)
    requires first <= last < |lines| && lines[last] != ""
    ensures Continues(lower, Stretch(lines, first, last), line) == Continues(lower, lines[last], line)
  {
    StretchEnd(lines, first, last);
    SameEnd(lower, Stretch(lines, first, last), lines[last], line);
  }

  lemma WithLineAppended(lower: char -> bool, init: seq<string>, s: string, line: string)
    ensures WithLine(lower, init + [s], line)
         == if Continues(lower, s, line) then init + [s + " " + line] else init + [s] + [line]
  {
    var out := init + [s];
    assert out[|out| - 1] == s && out[..|out| - 1] == init;
  }

  lemma {:induction false} NextLine(lower: char -> bool, lines: seq<string>, i: nat)
    requires i < |lines| && NoneEmpty(lines)
    ensures Joined(lower, lines, i + 1) == WithLine(lower, Joined(lower, lines, i), lines[i])
  {
    if i > 0 {
      var b := Begin(lower, lines, i - 1);
      StretchContinues(lower, lines, b, i - 1, lines[i]);
      WithLineAppended(lower, Joined(lower, lines, b), Stretch(lines, b, i - 1), lines[i]);
    }
  }

  method JoinHardWraps(lower: char -> bool, lines: seq<string>) returns (out: seq<string>)
    requires NoneEmpty(lines)
    ensures out == Joined(lower, lines, |lines|)
  {
    out := [];
    for i := 0 to |lines|
      invariant out == Joined(lower, lines, i)
    {
      NextLine(lower, lines, i);
      if out != [] && Continues(lower, out[|out| - 1], lines[i]) {
        out := out[..|out| - 1] + [out[|out| - 1] + " " + lines[i]];
      } else {
        out := out + [lines[i]];
      }
    }
  }

  // ---------------------------------------------------------------- nothing is lost

  /** The first `upTo` lines on one line. */
  function Flat(lines: seq<string>, upTo: nat): string
    requires upTo <= |lines|
  {
    if upTo == 0 then ""
    else if upTo == 1 then lines[0]
    else Flat(lines, upTo - 1) + " " + lines[upTo - 1]
  }

  lemma {:induction false} FlatOfAppend(lines: seq<string>, last: string, upTo: nat)
    requires upTo <= |lines|
    ensures Flat(lines + [last], upTo) == Flat(lines, upTo)
  {
    if upTo > 0 {
      FlatOfAppend(lines, last, upTo - 1);
    }
  }

  lemma {:induction false} FlatStretch(lines: seq<string>, first: nat, last: nat)
    requires first <= last < |lines|
    ensures Flat(lines, last + 1)
         == if first == 0 then Stretch(lines, first, last) else Flat(lines, first) + " " + Stretch(lines, first, last)
    decreases last
  {
    if first < last {
      FlatStretch(lines, first, last - 1);
      if first > 0 {
        Regroup(Flat(lines, first), Stretch(lines, first, last - 1), lines[last]);
      }
    }
  }

  lemma Regroup(a: string, b: string, c: string)
    ensures a + " " + b + " " + c == a + " " + (b + " " + c)
  {
    ConcatAssoc(a + " ", b, " ");
    ConcatAssoc(a + " ", b + " ", c);
  }

  lemma {:induction false} FlatWithStretch(out: seq<string>, lines: seq<string>, first: nat, last: nat)
    requires first <= last < |lines| && Flat(out, |out|) == Flat(lines, first) && (first > 0 <==> out != [])
    ensures Flat(out + [Stretch(lines, first, last)], |out| + 1) == Flat(lines, last + 1)
  {
    FlatOfAppend(out, Stretch(lines, first, last), |out|);
    FlatStretch(lines, first, last);
  }

  /** Joining changes no character but the line breaks it turns into blanks. */
  lemma {:induction false} TextIsConserved(lower: char -> bool, lines: seq<string>, upTo: nat)
    requires upTo <= |lines|
    ensures var out := Joined(lower, lines, upTo);
      Flat(out, |out|) == Flat(lines, upTo) && (upTo > 0 <==> out != [])
    decreases upTo
  {
    if upTo > 0 {
      var b := Begin(lower, lines, upTo - 1);
      TextIsConserved(lower, lines, b);
      FlatWithStretch(Joined(lower, lines, b), lines, b, upTo - 1);
    }
  }

  // ---------------------------------------------------------------- joining twice

  /** Appending a blank and more text keeps what a line starts with. */
  lemma {:induction false} SameStart(lower: char -> bool, before: string, line: string, more: string)
    requires line != "" && (forall c :: IsDigit(c) ==> !lower(c))
    ensures Continues(lower, before, line + " " + more) <==> Continues(lower, before, line)
  {
    var longer := line + " " + more;
    assert longer[0] == line[0];
    if ClauseLabel(line) {
      ClauseLabelStart(line);
    }
    if ClauseLabel(longer) {
      ClauseLabelStart(longer);
    }
    SamePointLabel(line, more);
  }

  lemma {:induction false} ClauseLabelStart(line: string)
    requires ClauseLabel(line)
    ensures line != "" && IsDigit(line[0])
  {
  }

  lemma {:induction false} BlankInside(line: string, more: string, k: nat)
    requires line != "" && |line| < k <= |line + " " + more|
    ensures !AllDigits((line + " " + more)[1..k])
  {
    assert (line + " " + more)[1..k][|line| - 1] == ' ';
  }

  lemma {:induction false} SamePointLabel(line: string, more: string)
    requires line != ""
    ensures PointLabel(line + " " + more) <==> PointLabel(line)
  {
    var longer := line + " " + more;
    if PointLabel(line) {
      var k :| 1 <= k < |line| && AllDigits(line[1..k]) && line[k] == ')';
      assert longer[1..k] == line[1..k] && longer[k] == ')';
    }
    if PointLabel(longer) {
      var k :| 1 <= k < |longer| && AllDigits(longer[1..k]) && longer[k] == ')';
      if k > |line| {
        BlankInside(line, more, k);
      }
      assert k < |line| ==> longer[1..k] == line[1..k];
    }
  }

  lemma {:induction false} StretchStart(lower: char -> bool, lines: seq<string>, before: string, first: nat, last: nat)
    requires first <= last < |lines| && NoneEmpty(lines) && (forall c :: IsDigit(c) ==> !lower(c))
    ensures Continues(lower, before, Stretch(lines, first, last)) <==> Continues(lower, before, lines[first])
    decreases last
  {
    if first < last {
      SameStart(lower, before, Stretch(lines, first, last - 1), lines[last]);
      StretchStart(lower, lines, before, first, last - 1);
    }
  }

  /** No line of the result goes on from the one before it. */
  ghost predicate Settled(lower: char -> bool, out: seq<string>) {
    forall i :: 0 < i < |out| ==> !Continues(lower, out[i - 1], out[i])
  }

  lemma {:induction false} BeginBreaks(lower: char -> bool, lines: seq<string>, last: nat)
    requires last < |lines|
    ensures var b := Begin(lower, lines, last);
      b > 0 ==> !Continues(lower, lines[b - 1], lines[b])
  {
    if last > 0 && Continues(lower, lines[last - 1], lines[last]) {
      BeginBreaks(lower, lines, last - 1);
    }
  }

  /** No stretch goes on from the one before it. */
  lemma {:induction false} StretchesBreak(lower: char -> bool, lines: seq<string>, c: nat, b: nat, last: nat)
    requires c < b <= last < |lines| && b == Begin(lower, lines, last)
    requires NoneEmpty(lines) && (forall x :: IsDigit(x) ==> !lower(x))
    ensures !Continues(lower, Stretch(lines, c, b - 1), Stretch(lines, b, last))
  {
    BeginBreaks(lower, lines, last);
    StretchEnd(lines, c, b - 1);
    StretchStart(lower, lines, Stretch(lines, c, b - 1), b, last);
  }

  lemma {:induction false} SettledAppend(lower: char -> bool, out: seq<string>, line: string)
    requires Settled(lower, out) && NoneEmpty(out) && line != ""
    requires out != [] ==> !Continues(lower, out[|out| - 1], line)
    ensures Settled(lower, out + [line]) && NoneEmpty(out + [line])
  {
  }

  lemma {:induction false} JoinedIsSettled(lower: char -> bool, lines: seq<string>, upTo: nat)
    requires upTo <= |lines| && NoneEmpty(lines) && (forall c :: IsDigit(c) ==> !lower(c))
    ensures Settled(lower, Joined(lower, lines, upTo)) && NoneEmpty(Joined(lower, lines, upTo))
    decreases upTo
  {
    if upTo > 0 {
      var b := Begin(lower, lines, upTo - 1);
      JoinedIsSettled(lower, lines, b);
      if b > 0 {
        StretchesBreak(lower, lines, Begin(lower, lines, b - 1), b, upTo - 1);
      }
      SettledAppend(lower, Joined(lower, lines, b), Stretch(lines, b, upTo - 1));
    }
  }

  lemma {:induction false} SettledIsUnchanged(lower: char -> bool, lines: seq<string>, upTo: nat)
    requires upTo <= |lines| && Settled(lower, lines)
    ensures Joined(lower, lines, upTo) == lines[..upTo]
  {
    if upTo > 0 {
      SettledIsUnchanged(lower, lines, upTo - 1);
      assert lines[..upTo] == lines[..upTo - 1] + [lines[upTo - 1]];
    }
  }

  /** Joining a second time changes nothing. */
  lemma {:induction false} JoiningTwice(lower: char -> bool, lines: seq<string>)
    requires NoneEmpty(lines) && (forall c :: IsDigit(c) ==> !lower(c))
    ensures var out := Joined(lower, lines, |lines|);
      Joined(lower, out, |out|) == out
  {
    var out := Joined(lower, lines, |lines|);
    JoinedIsSettled(lower, lines, |lines|);
    SettledIsUnchanged(lower, out, |out|);
    assert out[..|out|] == out;
  }

  // ---------------------------------------------------------------- which lines go on, in terms of their text

  /** The line reads: a small letter, digits, a closing parenthesis and some tail. */
  ghost predicate ReadsAsPoint(line: string, letter: char, digits: string, tail: string) {
    && line == [letter] + digits + ")" + tail && AllDigits(digits)
    && (letter == 'đ' || letter in "abcdefghijklmnopqrstuvwxyz")
  }

  /** The line reads: digits, at most one small letter, a full stop, and a tail that is empty or starts with white
      space or a bracket. */
  ghost predicate ReadsAsClause(line: string, digits: string, letter: string, tail: string) {
    && line == digits + letter + "." + tail && digits != "" && AllDigits(digits)
    && (letter == "" || (|letter| == 1 && (letter == "đ" || letter[0] in "abcdefghijklmnopqrstuvwxyz")))
    && (tail == "" || tail[0] == '[' || IsSpace(tail[0]))
  }

  lemma SmallLetters(c: char)
    ensures IsLetter(c) <==> c == 'đ' || c in "abcdefghijklmnopqrstuvwxyz"
  {
    var letters := "abcdefghijklmnopqrstuvwxyz";
    if 'a' <= c <= 'z' {
      assert letters[c as int - 'a' as int] == c;
    }
  }

  lemma {:induction false} PointOfText(line: string)
    ensures PointLabel(line) <==> exists letter, digits, tail :: ReadsAsPoint(line, letter, digits, tail)
  {
    if PointLabel(line) {
      var k :| 1 <= k < |line| && AllDigits(line[1..k]) && line[k] == ')';
      SmallLetters(line[0]);
      assert line == [line[0]] + line[1..k] + ")" + line[k + 1..];
      assert ReadsAsPoint(line, line[0], line[1..k], line[k + 1..]);
    }
    if letter, digits, tail :| ReadsAsPoint(line, letter, digits, tail) {
      SmallLetters(letter);
      assert line[1..|digits| + 1] == digits && line[|digits| + 1] == ')';
    }
  }

  lemma {:induction false} ClauseParts(line: string, k: nat)
    requires 1 <= k < |line| && AllDigits(line[..k])
    requires FullStopAt(line, if IsLetter(line[k]) then k + 1 else k)
    ensures exists digits, letter, tail :: ReadsAsClause(line, digits, letter, tail)
  {
    SmallLetters(line[k]);
    if IsLetter(line[k]) {
      assert line == line[..k] + [line[k]] + "." + line[k + 2..];
      assert ReadsAsClause(line, line[..k], [line[k]], line[k + 2..]);
    } else {
      assert line == line[..k] + "" + "." + line[k + 1..];
      assert ReadsAsClause(line, line[..k], "", line[k + 1..]);
    }
  }

  lemma {:induction false} ClauseFromParts(line: string, digits: string, letter: string, tail: string)
    requires ReadsAsClause(line, digits, letter, tail)
    ensures ClauseLabel(line)
  {
    var k := |digits|;
    assert line[..k] == digits;
    if letter != "" {
      SmallLetters(letter[0]);
      assert line[k] == letter[0] && line[k + 1] == '.' && line[k + 2..] == tail;
    } else {
      SmallLetters('.');
      assert line[k] == '.' && line[k + 1..] == tail;
    }
  }

  lemma {:induction false} ClauseOfText(line: string)
    ensures ClauseLabel(line) <==> exists digits, letter, tail :: ReadsAsClause(line, digits, letter, tail)
  {
    if ClauseLabel(line) {
      var k :| 1 <= k < |line| && AllDigits(line[..k]) && FullStopAt(line, if IsLetter(line[k]) then k + 1 else k);
      ClauseParts(line, k);
    }
    if digits, letter, tail :| ReadsAsClause(line, digits, letter, tail) {
      ClauseFromParts(line, digits, letter, tail);
    }
  }

  /** Main result on where lines are joined: a line goes on from the one before exactly when it starts with a lower-case
      character, the one before does not end in a full stop, semicolon or colon, and it reads as no label. */
  lemma {:induction false} ContinuesOfText(lower: char -> bool, before: string, line: string)
    ensures Continues(lower, before, line) <==>
      && line != "" && lower(line[0])
      && (forall start: string, c :: before == start + [c] ==> c != '.' && c != ';' && c != ':')
      && (forall letter, digits, tail :: !ReadsAsPoint(line, letter, digits, tail))
      && (forall digits, letter, tail :: !ReadsAsClause(line, digits, letter, tail))
  {
    PointOfText(line);
    ClauseOfText(line);
    EndOfText(before);
  }

  lemma {:induction false} EndOfText(before: string)
    ensures Terminated(before)
       <==> exists start: string, c :: before == start + [c] && (c == '.' || c == ';' || c == ':')
  {
    if before != "" {
      var n := |before| - 1;
      assert before == before[..n] + [before[n]];
    }
  }
}
