/** Numbers as contracts write them, and the one spelling the evaluation compares
    (evals/value_normalize.py, evals/golden/render_snapshot.py).

    Digits are ASCII digits. */
module AmountNotation {
  import opened Basics
  import opened Decimal
  import opened Strings

  /** An empty text makes the sign test index into nothing, which raises. */
  datatype Parsed = Raises | Rejected | Number(text: string)

  // ---------------------------------------------------------------- reading a number

  predicate IsSeparator(c: char) {
    c == '.' || c == ','
  }

  function Other(c: char): char {
    if c == '.' then ',' else '.'
  }

  predicate IsDigits(s: string) {
    s != "" && AllDigits(s)
  }

  predicate HasDigit(s: string) {
    exists i :: 0 <= i < |s| && IsDigit(s[i])
  }

  /** `rfind`. */
  function LastIndex(s: string, c: char): (k: int)
    ensures -1 <= k < |s|
    ensures c in s ==> k >= 0 && s[k] == c
  {
    if s == "" then -1 else if s[|s| - 1] == c then |s| - 1 else LastIndex(s[..|s| - 1], c)
  }

  /** `replace(c, "")`. */
  function Without(s: string, c: char): (r: string)
    ensures Lacks(s, c) ==> r == s
  {
    if s == "" then ""
    else
      var before, last := Without(s[..|s| - 1], c), s[|s| - 1];
      if last == c then before else before + [last]
  }

  function Join(pieces: seq<string>): string {
    if pieces == [] then "" else Join(pieces[..|pieces| - 1]) + pieces[|pieces| - 1]
  }

  function StripZeros(s: string): (r: string)
    ensures AllDigits(s) ==> AllDigits(r)
    ensures r != "" ==> r[|r| - 1] != '0'
  {
    if s != "" && s[|s| - 1] == '0' then StripZeros(s[..|s| - 1]) else s
  }

  /** A fraction without trailing zeros, `0` when nothing else is left. */
  function Trimmed(fraction: string): string {
    if StripZeros(fraction) == "" then "0" else StripZeros(fraction)
  }

  predicate ThreeEach(pieces: seq<string>) {
    forall i :: 0 <= i < |pieces| ==> |pieces[i]| == 3
  }

  function Signed(sign: string, digits: string, fraction: string): Parsed
    requires fraction != "" ==> IsDigits(digits) && IsDigits(fraction)
  {
    if !IsDigits(digits) then Rejected
    else if fraction == "" then Number(sign + DecimalText(Value(digits)))
    else Number(sign + DecimalText(Value(digits)) + "." + Trimmed(fraction))
  }

  function ReadParts(sign: string, integer: string, fraction: string): Parsed {
    if !IsDigits(integer) || !IsDigits(fraction) then Rejected else Signed(sign, integer, fraction)
  }

  /** Read with the given decimal separator, the other one grouping. */
  function ReadAt(sign: string, raw: string, decimal: char): Parsed
    requires decimal in raw
  {
    var k := LastIndex(raw, decimal);
    ReadParts(sign, Without(raw[..k], Other(decimal)), raw[k + 1..])
  }

  /** Both separators occur: the later one is the decimal one. */
  function ReadBoth(sign: string, raw: string): Parsed
    requires '.' in raw && ',' in raw
  {
    ReadAt(sign, raw, if LastIndex(raw, '.') > LastIndex(raw, ',') then '.' else ',')
  }

  /** At most one kind of separator occurs: groups of three are grouping, one other piece is a fraction. */
  function ReadOne(sign: string, raw: string): Parsed {
    if '.' !in raw && ',' !in raw then Signed(sign, raw, "")
    else
      var pieces := SplitOn(raw, if '.' in raw then '.' else ',');
      if (|pieces| > 2 && ThreeEach(pieces[1..])) || (|pieces| == 2 && |pieces[1]| == 3 && |pieces[0]| >= 1) then
        Signed(sign, Join(pieces), "")
      else if |pieces| != 2 || !IsDigits(pieces[0]) || !AllDigits(pieces[1]) then Rejected
      else Signed(sign, pieces[0], pieces[1])
  }

  function ReadUnsigned(sign: string, raw: string): Parsed {
    if raw == "" || !HasDigit(raw) then Rejected
    else if '.' in raw && ',' in raw then ReadBoth(sign, raw)
    else ReadOne(sign, raw)
  }

  predicate IsSign(c: char) {
    c == '+' || c == '-'
  }

  function CanonicalNumber(raw: string): Parsed {
    if raw == "" then Parsed.Raises
    else if IsSign(raw[0]) then ReadUnsigned([raw[0]], raw[1..])
    else ReadUnsigned("", raw)
  }

  // ---------------------------------------------------------------- printing an amount

  function Three(r: nat): (s: string)
    requires r < 1000
    ensures |s| == 3 && AllDigits(s)
  {
    [DigitChar(r / 100), DigitChar(r / 10 % 10), DigitChar(r % 10)]
  }

  /** Digits in groups of three. */
  function Grouped(v: nat, c: char): (s: string)
    ensures s != "" && IsDigit(s[0])
  {
    if v < 1000 then DecimalText(v) else Grouped(v / 1000, c) + [c] + Three(v % 1000)
  }

  function Str(v: int): string {
    if v < 0 then "-" + DecimalText(-v) else DecimalText(v)
  }

  /** The printer of amounts in dong. */
  function Vnd(v: int): string {
    if v < 0 then "-" + Grouped(-v, '.') else Grouped(v, '.')
  }

  lemma DividingByThousand(v: nat)
    ensures v / 10 / 10 / 10 == v / 1000
    ensures v / 10 / 10 % 10 == v % 1000 / 100 && v / 10 % 10 == v % 1000 / 10 % 10 && v % 10 == v % 1000 % 10
  {
  }

  lemma {:induction false} OneMoreDigit(v: nat)
    requires v >= 10
    ensures DecimalText(v) == DecimalText(v / 10) + [DigitChar(v % 10)]
  {
  }

  lemma {:induction false} ThreeMoreDigits(v: nat)
    requires v >= 1000
    ensures DecimalText(v) == DecimalText(v / 1000) + Three(v % 1000)
  {
    DividingByThousand(v);
    var tens, hundreds := v / 10, v / 10 / 10;
    OneMoreDigit(v);
    OneMoreDigit(tens);
    OneMoreDigit(hundreds);
    assert Three(v % 1000) == [DigitChar(hundreds % 10), DigitChar(tens % 10), DigitChar(v % 10)];
  }

  /** What splitting a printed number at its separator gives. */
  ghost predicate GroupsOf(pieces: seq<string>, v: nat) {
    && pieces != []
    && |pieces[0]| >= 1
    && ThreeEach(pieces[1..])
    && Join(pieces) == DecimalText(v)
    && (|pieces| == 1 <==> v < 1000)
  }

  lemma {:induction false} JoinAppend(pieces: seq<string>, last: string)
    ensures Join(pieces + [last]) == Join(pieces) + last
  {
  }

  lemma {:induction false} DigitsLack(s: string, c: char)
    requires AllDigits(s) && !IsDigit(c)
    ensures Lacks(s, c) && c !in s
  {
  }

  lemma {:induction false} GroupsGrow(front: seq<string>, v: nat)
    requires v >= 1000 && GroupsOf(front, v / 1000)
    ensures GroupsOf(front + [Three(v % 1000)], v)
  {
    var last := Three(v % 1000);
    JoinAppend(front, last);
    ThreeMoreDigits(v);
    assert (front + [last])[1..] == front[1..] + [last];
  }

  lemma {:induction false} OneGroup(v: nat)
    requires v < 1000
    ensures GroupsOf([DecimalText(v)], v)
  {
  }

  lemma {:induction false} SplitGrouped(v: nat, c: char)
    requires !IsDigit(c)
    ensures GroupsOf(SplitOn(Grouped(v, c), c), v)
  {
    if v < 1000 {
      DigitsLack(DecimalText(v), c);
      SplitWithoutSeparator(DecimalText(v), c);
      OneGroup(v);
    } else {
      var last := Three(v % 1000);
      SplitGrouped(v / 1000, c);
      SplitAtSeparator(Grouped(v / 1000, c), last, c);
      DigitsLack(last, c);
      SplitWithoutSeparator(last, c);
      GroupsGrow(SplitOn(Grouped(v / 1000, c), c), v);
    }
  }

  lemma {:induction false} WithoutConcat(a: string, b: string, c: char)
    ensures Without(a + b, c) == Without(a, c) + Without(b, c)
  {
    if b == "" {
      ConcatEmpty(a);
      ConcatEmpty(Without(a, c));
    } else {
      var init, last := b[..|b| - 1], b[|b| - 1];
      WithoutConcat(a, init, c);
      assert (a + b)[..|a + b| - 1] == a + init;
      assert (a + b)[|a + b| - 1] == last;
      ConcatAssoc(Without(a, c), Without(init, c), [last]);
    }
  }

  lemma {:induction false} WithoutGrouping(v: nat, c: char)
    requires !IsDigit(c)
    ensures Without(Grouped(v, c), c) == DecimalText(v)
  {
    if v < 1000 {
      DigitsLack(DecimalText(v), c);
    } else {
      var front := Grouped(v / 1000, c);
      var last := Three(v % 1000);
      WithoutGrouping(v / 1000, c);
      DigitsLack(last, c);
      WithoutConcat(front + [c], last, c);
      WithoutConcat(front, [c], c);
      ThreeMoreDigits(v);
      assert Without([c], c) == "";
      ConcatEmpty(DecimalText(v / 1000));
    }
  }

  lemma {:induction false} GroupedChars(v: nat, c: char, other: char)
    requires !IsDigit(c) && !IsDigit(other) && other != c
    ensures other !in Grouped(v, c)
    ensures c in Grouped(v, c) <==> v >= 1000
  {
    if v < 1000 {
      DigitsLack(DecimalText(v), c);
      DigitsLack(DecimalText(v), other);
    } else {
      GroupedChars(v / 1000, c, other);
      DigitsLack(Three(v % 1000), other);
      var s := Grouped(v, c);
      assert s[|Grouped(v / 1000, c)|] == c;
    }
  }

  // ---------------------------------------------------------------- printed numbers read back

  /** A grouped integer of either style reads as its digits. */
  lemma {:induction false} GroupedReadsBack(sign: string, v: nat, c: char)
    requires c == '.' || c == ','
    ensures ReadUnsigned(sign, Grouped(v, c)) == Number(sign + DecimalText(v))
  {
    var raw := Grouped(v, c);
    GroupedChars(v, c, Other(c));
    SplitGrouped(v, c);
    ValueOfText(v);
    assert HasDigit(raw);
  }

  lemma {:induction false} SignIsSplit(sign: char, s: string)
    requires sign == '+' || sign == '-'
    ensures CanonicalNumber([sign] + s) == ReadUnsigned([sign], s)
  {
  }

  lemma {:induction false} NoSignIsSplit(s: string)
    requires s != "" && IsDigit(s[0])
    ensures CanonicalNumber(s) == ReadUnsigned("", s)
  {
  }

  lemma {:induction false} NegativeReadsBack(v: nat, raw: string, text: string)
    requires raw == "-" + Grouped(v, '.') && text == "-" + DecimalText(v)
    ensures CanonicalNumber(raw) == Number(text)
  {
    GroupedReadsBack("-", v, '.');
    SignIsSplit('-', Grouped(v, '.'));
  }

  lemma {:induction false} NonNegativeReadsBack(v: nat)
    ensures CanonicalNumber(Grouped(v, '.')) == Number(DecimalText(v))
  {
    GroupedReadsBack("", v, '.');
    NoSignIsSplit(Grouped(v, '.'));
    ConcatEmpty(DecimalText(v));
  }

  /** Every printed amount is read back as the plain decimal text of its value. */
  lemma {:induction false} AmountReadsBack(v: int)
    ensures CanonicalNumber(Vnd(v)) == Number(Str(v))
  {
    if v < 0 {
      NegativeReadsBack(-v, Vnd(v), Str(v));
    } else {
      NonNegativeReadsBack(v);
    }
  }

  // ---------------------------------------------------------------- fractions

  lemma {:induction false} SplitOnce(a: string, c: char, b: string)
    requires AllDigits(a) && AllDigits(b) && !IsDigit(c)
    ensures SplitOn(a + [c] + b, c) == [a, b]
  {
    SplitAtSeparator(a, b, c);
    DigitsLack(a, c);
    DigitsLack(b, c);
    SplitWithoutSeparator(a, c);
    SplitWithoutSeparator(b, c);
  }

  lemma {:induction false} AppendLacks(a: string, c: char, b: string, other: char)
    requires other !in a && other !in b && other != c
    ensures other !in a + [c] + b
  {
  }

  lemma {:induction false} OneSeparator(a: string, c: char, b: string)
    requires IsDigits(a) && IsDigits(b) && IsSeparator(c)
    ensures var raw := a + [c] + b;
      && HasDigit(raw) && c in raw && Other(c) !in raw
      && SplitOn(raw, if '.' in raw then '.' else ',') == [a, b]
  {
    var raw := a + [c] + b;
    DigitsLack(a, Other(c));
    DigitsLack(b, Other(c));
    AppendLacks(a, c, b, Other(c));
    SplitOnce(a, c, b);
    assert raw[|a|] == c && IsDigit(raw[0]);
  }

  lemma JoinOfTwo(a: string, b: string)
    ensures Join([a, b]) == a + b
  {
    JoinAppend([], a);
    JoinAppend([a], b);
    ConcatEmpty(a);
    assert [] + [a] == [a] && [a] + [b] == [a, b];
  }

  lemma {:induction false} PairIsRead(sign: string, a: string, c: char, b: string)
    requires IsDigits(a) && IsDigits(b) && IsSeparator(c)
    ensures ReadUnsigned(sign, a + [c] + b) == if |b| == 3 then Signed(sign, a + b, "") else Signed(sign, a, b)
  {
    OneSeparator(a, c, b);
    JoinOfTwo(a, b);
  }

  lemma {:induction false} FractionOfSmall(sign: string, v: nat, decimal: char, fraction: string)
    requires IsSeparator(decimal) && IsDigits(fraction) && |fraction| != 3
    ensures ReadUnsigned(sign, DecimalText(v) + [decimal] + fraction)
      == Number(sign + DecimalText(v) + "." + Trimmed(fraction))
  {
    PairIsRead(sign, DecimalText(v), decimal, fraction);
    ValueOfText(v);
  }

  /** Three digits after the only separator are taken for a group of thousands. */
  lemma {:induction false} ThreeDigitsAreAGroup(sign: string, v: nat, decimal: char, fraction: string)
    requires (decimal == '.' || decimal == ',') && IsDigits(fraction) && |fraction| == 3
    ensures ReadUnsigned(sign, DecimalText(v) + [decimal] + fraction)
      == Number(sign + DecimalText(v * 1000 + Value(fraction)))
  {
    PairIsRead(sign, DecimalText(v), decimal, fraction);
    ValueWithGroup(v, fraction);
  }

  lemma {:induction false} ValueWithGroup(v: nat, group: string)
    requires IsDigits(group) && |group| == 3
    ensures IsDigits(DecimalText(v) + group) && Value(DecimalText(v) + group) == v * 1000 + Value(group)
  {
    ValueOfText(v);
    ThreeAppended(DecimalText(v), group);
    ThreeAppended("", group);
    ConcatEmpty(group);
  }

  lemma {:induction false} ThreeAppended(s: string, g: string)
    requires AllDigits(s) && AllDigits(g) && |g| == 3
    ensures AllDigits(s + g)
    ensures Value(s + g) == Value(s) * 1000 + DigitValue(g[0]) * 100 + DigitValue(g[1]) * 10 + DigitValue(g[2])
  {
    ValueAppend(s, g[0]);
    ValueAppend(s + [g[0]], g[1]);
    ValueAppend(s + [g[0]] + [g[1]], g[2]);
    assert s + g == s + [g[0]] + [g[1]] + [g[2]];
  }

  lemma {:induction false} ValueAppend(s: string, c: char)
    requires AllDigits(s) && IsDigit(c)
    ensures AllDigits(s + [c]) && Value(s + [c]) == Value(s) * 10 + DigitValue(c)
  {
  }

  lemma {:induction false} DecimalComesLast(whole: string, decimal: char, fraction: string)
    requires IsSeparator(decimal) && IsDigits(fraction)
    requires decimal !in whole && Other(decimal) in whole
    ensures var raw := whole + [decimal] + fraction;
      decimal in raw && Other(decimal) in raw && LastIndex(raw, Other(decimal)) < LastIndex(raw, decimal) == |whole|
  {
  }

  lemma {:induction false} BothAreRead(sign: string, whole: string, decimal: char, fraction: string)
    requires IsSeparator(decimal) && IsDigits(fraction)
    requires decimal !in whole && Other(decimal) in whole && IsDigits(Without(whole, Other(decimal)))
    ensures '.' in whole + [decimal] + fraction && ',' in whole + [decimal] + fraction
    ensures ReadBoth(sign, whole + [decimal] + fraction) == Signed(sign, Without(whole, Other(decimal)), fraction)
  {
    var raw := whole + [decimal] + fraction;
    DecimalComesLast(whole, decimal, fraction);
    assert raw[|whole| + 1..] == fraction && raw[..|whole|] == whole;
  }

  lemma {:induction false} FractionOfLarge(sign: string, v: nat, decimal: char, fraction: string)
    requires IsSeparator(decimal) && IsDigits(fraction) && v >= 1000
    ensures ReadUnsigned(sign, Grouped(v, Other(decimal)) + [decimal] + fraction)
         == Number(sign + DecimalText(v) + "." + Trimmed(fraction))
  {
    var whole := Grouped(v, Other(decimal));
    GroupedChars(v, Other(decimal), decimal);
    WithoutGrouping(v, Other(decimal));
    ValueOfText(v);
    BothAreRead(sign, whole, decimal, fraction);
    assert IsDigit((whole + [decimal] + fraction)[0]);
  }

  lemma {:induction false} TextsDiffer(sign: string, n: nat, m: nat, tail: string)
    ensures sign + DecimalText(n) != sign + DecimalText(m) + "." + tail
  {
    var a := sign + DecimalText(n);
    var b := sign + DecimalText(m) + "." + tail;
    assert b[|sign| + |DecimalText(m)|] == '.';
    if |sign| + |DecimalText(m)| < |a| {
      assert a[|sign| + |DecimalText(m)|] == DecimalText(n)[|DecimalText(m)|];
    }
  }

  /** A printed decimal number of either style reads as its value exactly when it is not a small
      number with three decimals, which reads as a thousandfold one. */
  lemma {:induction false} DecimalReadsBack(sign: string, v: nat, decimal: char, fraction: string)
    requires (decimal == '.' || decimal == ',') && IsDigits(fraction)
    ensures ReadUnsigned(sign, Grouped(v, Other(decimal)) + [decimal] + fraction)
              == Number(sign + DecimalText(v) + "." + Trimmed(fraction))
       <==> !(v < 1000 && |fraction| == 3)
  {
    if v >= 1000 {
      FractionOfLarge(sign, v, decimal, fraction);
    } else if |fraction| == 3 {
      ThreeDigitsAreAGroup(sign, v, decimal, fraction);
      TextsDiffer(sign, v * 1000 + Value(fraction), v, Trimmed(fraction));
    } else {
      FractionOfSmall(sign, v, decimal, fraction);
    }
  }

  // ---------------------------------------------------------------- reading twice

  predicate IsTrimmed(fraction: string) {
    fraction != "" ==> AllDigits(fraction) && Trimmed(fraction) == fraction
  }

  function Spelled(sign: string, n: nat, fraction: string): string {
    if fraction == "" then sign + DecimalText(n) else sign + DecimalText(n) + "." + fraction
  }

  lemma {:induction false} TrimmedTwice(fraction: string)
    requires AllDigits(fraction)
    ensures Trimmed(fraction) != "" && IsTrimmed(Trimmed(fraction))
  {
    assert StripZeros("0") == StripZeros("");
  }

  lemma {:induction false} SignedSpelling(sign: string, digits: string, fraction: string) returns (n: nat, f: string)
    requires fraction != "" ==> IsDigits(digits) && IsDigits(fraction)
    requires Signed(sign, digits, fraction).Number?
    ensures IsTrimmed(f) && Signed(sign, digits, fraction).text == Spelled(sign, n, f)
  {
    n := Value(digits);
    f := if fraction == "" then "" else Trimmed(fraction);
    if fraction != "" {
      TrimmedTwice(fraction);
    }
  }

  lemma {:induction false} SpellingOfParts(sign: string, integer: string, fraction: string) returns (n: nat, f: string)
    requires ReadParts(sign, integer, fraction).Number?
    ensures IsTrimmed(f) && ReadParts(sign, integer, fraction).text == Spelled(sign, n, f)
  {
    n, f := SignedSpelling(sign, integer, fraction);
  }

  lemma {:induction false} SpellingAt(sign: string, raw: string, decimal: char) returns (n: nat, f: string)
    requires decimal in raw && ReadAt(sign, raw, decimal).Number?
    ensures IsTrimmed(f) && ReadAt(sign, raw, decimal).text == Spelled(sign, n, f)
  {
    var k := LastIndex(raw, decimal);
    n, f := SpellingOfParts(sign, Without(raw[..k], Other(decimal)), raw[k + 1..]);
  }

  lemma {:induction false} SpellingOfOne(sign: string, raw: string) returns (n: nat, f: string)
    requires ReadOne(sign, raw).Number?
    ensures IsTrimmed(f) && ReadOne(sign, raw).text == Spelled(sign, n, f)
  {
    if '.' !in raw && ',' !in raw {
      n, f := SignedSpelling(sign, raw, "");
    } else {
      var pieces := SplitOn(raw, if '.' in raw then '.' else ',');
      if (|pieces| > 2 && ThreeEach(pieces[1..])) || (|pieces| == 2 && |pieces[1]| == 3 && |pieces[0]| >= 1) {
        n, f := SignedSpelling(sign, Join(pieces), "");
      } else {
        n, f := SignedSpelling(sign, pieces[0], pieces[1]);
      }
    }
  }

  /** Every accepted number is spelled without leading zeros and with a trimmed fraction. */
  lemma {:induction false} AcceptedSpelling(sign: string, raw: string) returns (n: nat, f: string)
    requires ReadUnsigned(sign, raw).Number?
    ensures IsTrimmed(f) && ReadUnsigned(sign, raw).text == Spelled(sign, n, f)
  {
    if '.' in raw && ',' in raw {
      n, f := SpellingAt(sign, raw, if LastIndex(raw, '.') > LastIndex(raw, ',') then '.' else ',');
    } else {
      n, f := SpellingOfOne(sign, raw);
    }
  }

  lemma {:induction false} PlainReadsBack(sign: string, n: nat)
    ensures ReadUnsigned(sign, DecimalText(n)) == Number(sign + DecimalText(n))
  {
    DigitsLack(DecimalText(n), '.');
    DigitsLack(DecimalText(n), ',');
    ValueOfText(n);
    assert IsDigit(DecimalText(n)[0]);
  }

  predicate ThreeDigitFraction(s: string) {
    |s| >= 4 && s[|s| - 4] == '.'
  }

  predicate SignOrNone(sign: string) {
    sign == "" || (|sign| == 1 && IsSign(sign[0]))
  }

  lemma {:induction false} SpelledFraction(sign: string, n: nat, f: string)
    requires IsTrimmed(f) && SignOrNone(sign)
    ensures ThreeDigitFraction(Spelled(sign, n, f)) <==> |f| == 3
  {
  }

  lemma {:induction false} FractionReadsBack(sign: string, n: nat, f: string)
    requires f != "" && IsTrimmed(f)
    ensures ReadUnsigned(sign, DecimalText(n) + "." + f) == Number(sign + DecimalText(n) + "." + f) <==> |f| != 3
  {
    if |f| == 3 {
      ThreeDigitsAreAGroup(sign, n, '.', f);
      TextsDiffer(sign, n * 1000 + Value(f), n, f);
    } else {
      FractionOfSmall(sign, n, '.', f);
    }
  }

  lemma {:induction false} SpelledReadsBack(sign: string, n: nat, f: string)
    requires IsTrimmed(f)
    ensures ReadUnsigned(sign, Spelled("", n, f)) == Number(Spelled(sign, n, f)) <==> |f| != 3
  {
    ConcatEmpty(DecimalText(n));
    if f == "" {
      PlainReadsBack(sign, n);
    } else {
      FractionReadsBack(sign, n, f);
    }
  }

  lemma {:induction false} SignComesFirst(sign: string, n: nat, f: string)
    ensures Spelled(sign, n, f) == sign + Spelled("", n, f)
    ensures Spelled("", n, f) != "" && IsDigit(Spelled("", n, f)[0])
  {
  }

  lemma {:induction false} SignIsRead(sign: string, s: string)
    requires SignOrNone(sign) && s != "" && IsDigit(s[0])
    ensures CanonicalNumber(sign + s) == ReadUnsigned(sign, s)
  {
    if sign == "" {
      NoSignIsSplit(s);
      ConcatEmpty(s);
    } else {
      assert sign == [sign[0]];
      SignIsSplit(sign[0], s);
    }
  }

  lemma {:induction false} SpelledTwice(sign: string, n: nat, f: string)
    requires IsTrimmed(f) && SignOrNone(sign)
    ensures CanonicalNumber(Spelled(sign, n, f)) == Number(Spelled(sign, n, f)) <==> |f| != 3
  {
    SpelledReadsBack(sign, n, f);
    SignComesFirst(sign, n, f);
    SignIsRead(sign, Spelled("", n, f));
  }

  /** Reading an accepted number again changes nothing exactly when it has no three-digit fraction. */
  lemma {:induction false} ReadingTwice(raw: string)
    requires CanonicalNumber(raw).Number?
    ensures var out := CanonicalNumber(raw).text;
      CanonicalNumber(out) == Number(out) <==> !ThreeDigitFraction(out)
  {
    var sign := if IsSign(raw[0]) then [raw[0]] else "";
    var n, f := AcceptedSpelling(sign, if IsSign(raw[0]) then raw[1..] else raw);
    SpelledTwice(sign, n, f);
    SpelledFraction(sign, n, f);
  }

  lemma {:induction false} TrailingZeroIsTrimmed(fraction: string)
    requires IsDigits(fraction) && fraction[|fraction| - 1] != '0'
    ensures IsDigits(fraction + "0") && Trimmed(fraction + "0") == fraction
  {
    var longer := fraction + "0";
    assert longer[|longer| - 1] == '0' && longer[..|longer| - 1] == fraction;
    assert StripZeros(longer) == StripZeros(fraction) == fraction;
  }

  lemma {:induction false} UnsignedIsRead(v: nat, fraction: string, raw: string)
    requires raw == DecimalText(v) + "." + fraction
    ensures CanonicalNumber(raw) == ReadUnsigned("", raw)
  {
    NoSignIsSplit(raw);
  }

  lemma {:induction false} ThreeDecimalsAndZero(v: nat, fraction: string, raw: string, text: string)
    requires IsDigits(fraction) && |fraction| == 3 && fraction[2] != '0'
    requires raw == DecimalText(v) + "." + (fraction + "0") && text == DecimalText(v) + "." + fraction
    ensures CanonicalNumber(raw) == Number(text)
  {
    TrailingZeroIsTrimmed(fraction);
    UnsignedIsRead(v, fraction + "0", raw);
    FractionOfSmall("", v, '.', fraction + "0");
    ConcatEmpty(DecimalText(v));
  }

  lemma {:induction false} ThreeDecimals(v: nat, fraction: string, raw: string)
    requires IsDigits(fraction) && |fraction| == 3 && raw == DecimalText(v) + "." + fraction
    ensures CanonicalNumber(raw) == Number(DecimalText(v * 1000 + Value(fraction)))
  {
    UnsignedIsRead(v, fraction, raw);
    ThreeDigitsAreAGroup("", v, '.', fraction);
    ConcatEmpty(DecimalText(v * 1000 + Value(fraction)));
  }

  /** The failing family is not empty: three decimals and a zero are accepted with the three decimals,
      and a second reading takes these for a group. */
  lemma {:induction false} ThousandfoldOnSecondReading(v: nat, fraction: string)
    requires IsDigits(fraction) && |fraction| == 3 && fraction[2] != '0'
    ensures CanonicalNumber(DecimalText(v) + "." + (fraction + "0")) == Number(DecimalText(v) + "." + fraction)
    ensures CanonicalNumber(DecimalText(v) + "." + fraction) == Number(DecimalText(v * 1000 + Value(fraction)))
  {
    var accepted := DecimalText(v) + "." + fraction;
    ThreeDecimalsAndZero(v, fraction, DecimalText(v) + "." + (fraction + "0"), accepted);
    ThreeDecimals(v, fraction, accepted);
  }
}
