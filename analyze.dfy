/** `src/app/api/analyze/route.ts`: a copy analysis by a workflow run, with
    the readability bucket of the returned score and the cleaning of the
    three free-text feedback fields. */
module Analyze {
  import opened Wrappers
  import opened Strings
  import opened Engine

  // ------------------------------------------------------------- parseInt

  /** The value of `c` as a digit of radix up to 36; 36 for a character
      that is no digit. */
  function DigitValue(c: char): nat {
    if '0' <= c <= '9' then c as int - '0' as int
    else if 'a' <= c <= 'z' then c as int - 'a' as int + 10
    else if 'A' <= c <= 'Z' then c as int - 'A' as int + 10
    else 36
  }

  predicate IsDigit(c: char, radix: nat) {
    DigitValue(c) < radix
  }

  /** Length of the longest prefix of `s` made of radix-`radix` digits. */
  function DigitRun(s: string, radix: nat): (n: nat)
    ensures n <= |s|
    ensures forall i :: 0 <= i < n ==> IsDigit(s[i], radix)
    ensures n < |s| ==> !IsDigit(s[n], radix)
  {
    if s == [] || !IsDigit(s[0], radix) then 0 else 1 + DigitRun(s[1..], radix)
  }

  /** The number a string of digits denotes, most significant digit first. */
  function DigitsValue(s: string, radix: nat): int
    requires forall i :: 0 <= i < |s| ==> IsDigit(s[i], radix)
    decreases |s|
  {
    if s == [] then 0
    else
      var front := s[..|s| - 1];
      assert forall i :: 0 <= i < |front| ==> front[i] == s[i];
      DigitsValue(front, radix) * radix + DigitValue(s[|s| - 1])
  }

  /** `parseInt(s)` with no radix, as ECMAScript defines it: leading
      whitespace skipped, an optional sign, a `0x`/`0X` prefix switching to
      radix 16, then the longest run of digits; `None` stands for `NaN`. */
  function ParseInt(s: string): Option<int> {
    var t := TrimStart(s);
    if t != [] && t[0] == '-' then
      var magnitude := ParseMagnitude(t[1..]);
      if magnitude.Some? then Some(-magnitude.value) else None
    else if t != [] && t[0] == '+' then ParseMagnitude(t[1..])
    else ParseMagnitude(t)
  }

  /** What `parseInt` reads after the sign: a `0x`/`0X` prefix switches to
      radix 16; then the longest run of digits, `None` when it is empty. */
  function ParseMagnitude(u: string): Option<int> {
    var hex := |u| >= 2 && u[0] == '0' && (u[1] == 'x' || u[1] == 'X');
    var radix := if hex then 16 else 10;
    var v := if hex then u[2..] else u;
    var n := DigitRun(v, radix);
    if n == 0 then None else Some(DigitsValue(v[..n], radix))
  }

  /** The index of the first `c` in `s`, or `|s|` when there is none. */
  function FirstIndex(s: string, c: char): (i: nat)
    ensures i <= |s| && c !in s[..i]
    ensures i < |s| ==> s[i] == c
    ensures i == |s| <==> c !in s
  {
    if s == [] then 0
    else if s[0] == c then 0
    else
      var j := FirstIndex(s[1..], c);
      assert s[..j + 1] == [s[0]] + s[1..][..j];
      assert j < |s| - 1 ==> s[j + 1] == s[1..][j];
      assert c in s ==> c in s[1..];
      1 + j
  }

  /** `s.replace(c, "")` with a string pattern: only the first occurrence is
      removed. */
  function RemoveFirst(s: string, c: char): string {
    var i := FirstIndex(s, c);
    if i == |s| then s else s[..i] + s[i + 1..]
  }

  /** A character absent from `s` is first found in `t`, after `s`. */
  lemma {:induction false} FirstIndexAfter(s: string, t: string, c: char)
    requires c !in s
    ensures FirstIndex(s + t, c) == |s| + FirstIndex(t, c)
  {
    if s == [] {
      assert s + t == t;
    } else {
      assert (s + t)[1..] == s[1..] + t;
      assert s[0] in s;
      assert c !in s[1..] by {
        forall k | 0 <= k < |s[1..]| ensures s[1..][k] != c {
          assert s[1..][k] == s[k + 1];
        }
      }
      FirstIndexAfter(s[1..], t, c);
    }
  }

  /** Whatever precedes the first `c` and whatever follows it are what
      removing `c` leaves; a string without `c` is left alone. */
  lemma RemoveFirstOccurrence(a: string, b: string, c: char)
    requires c !in a
    ensures RemoveFirst(a + [c] + b, c) == a + b
    ensures RemoveFirst(a, c) == a
  {
    var s := a + [c] + b;
    assert s == a + ([c] + b);
    FirstIndexAfter(a, [c] + b, c);
    assert s[..|a|] == a && s[|a| + 1..] == b;
  }

  // ---------------------------------------------------------- readability

  datatype Readability = Good | NeedsImprovement | Bad

  /** `getReadabilityStatus(score)`: the first `%` removed and the rest read
      by `parseInt`; 75 and above is good, 50 and above needs improvement,
      anything else, `NaN` included, is bad. */
  function ReadabilityStatus(score: string): Readability {
    var numericScore := ParseInt(RemoveFirst(score, '%'));
    if numericScore.Some? && numericScore.value >= 75 then Good
    else if numericScore.Some? && numericScore.value >= 50 then NeedsImprovement
    else Bad
  }

  /** The character of a decimal digit. */
  function DigitChar(d: nat): char
    requires d < 10
  {
    ('0' as int + d) as char
  }

  /** The decimal text of a natural number, `String(n)`. */
  function NatText(n: nat): string
    decreases n
  {
    if n < 10 then [DigitChar(n)] else NatText(n / 10) + [DigitChar(n % 10)]
  }

  /** The decimal text of an integer, `String(n)`. */
  function DecimalText(n: int): string {
    if n < 0 then "-" + NatText(-n) else NatText(n)
  }

  /** The decimal text of `n` is a run of decimal digits that denotes `n`,
      and it starts with a non-zero digit unless it is "0". */
  lemma {:induction false} NatTextDigits(n: nat)
    ensures NatText(n) != []
    ensures forall i :: 0 <= i < |NatText(n)| ==> IsDigit(NatText(n)[i], 10)
    ensures DigitsValue(NatText(n), 10) == n
    ensures n >= 10 ==> NatText(n)[0] != '0'
    decreases n
  {
    if n >= 10 {
      NatTextDigits(n / 10);
      var s := NatText(n / 10);
      assert NatText(n) == s + [DigitChar(n % 10)];
      assert NatText(n)[..|NatText(n)| - 1] == s;
      if n / 10 < 10 {
        assert s[0] != '0';
      }
    }
  }

  /** A run of decimal digits has no `0x` prefix and is read to its end. */
  lemma DecimalRun(digits: string)
    requires digits != [] && forall i :: 0 <= i < |digits| ==> IsDigit(digits[i], 10)
    ensures !IsSpace(digits[0]) && digits[0] != '-' && digits[0] != '+'
    ensures !(|digits| >= 2 && digits[0] == '0' && (digits[1] == 'x' || digits[1] == 'X'))
    ensures DigitRun(digits, 10) == |digits| && digits[..|digits|] == digits
  {
    assert IsDigit(digits[0], 10);
    if |digits| >= 2 {
      assert IsDigit(digits[1], 10);
    }
  }

  /** After the sign, a run of decimal digits is read as the number it
      denotes. */
  lemma MagnitudeOfDigits(digits: string)
    requires digits != [] && forall i :: 0 <= i < |digits| ==> IsDigit(digits[i], 10)
    ensures ParseMagnitude(digits) == Some(DigitsValue(digits, 10))
  {
    DecimalRun(digits);
  }

  /** `parseInt` reads a run of decimal digits as the number it denotes. */
  lemma ParseDigits(digits: string)
    requires digits != [] && forall i :: 0 <= i < |digits| ==> IsDigit(digits[i], 10)
    ensures ParseInt(digits) == Some(DigitsValue(digits, 10))
  {
    DecimalRun(digits);
    assert TrimStart(digits) == digits;
    MagnitudeOfDigits(digits);
  }

  /** ... and with a minus sign in front of text whose magnitude is `m`, as
      `-m`. */
  lemma ParseMinus(u: string, m: int)
    requires ParseMagnitude(u) == Some(m)
    ensures ParseInt("-" + u) == Some(-m)
  {
    MinusFront(u);
  }

  /** A leading minus sign is not whitespace, so `parseInt` reads it first. */
  lemma MinusFront(digits: string)
    ensures var signed := "-" + digits;
      TrimStart(signed) == signed && signed[0] == '-' && signed[1..] == digits
  {
    var signed := "-" + digits;
    assert signed[0] == '-' && signed[1..] == digits;
  }

  /** `parseInt` reads back every integer from its decimal text. */
  lemma ParseDecimal(n: int)
    ensures ParseInt(DecimalText(n)) == Some(n)
  {
    var m := if n < 0 then -n else n;
    NatTextDigits(m);
    if n < 0 {
      MagnitudeOfDigits(NatText(m));
      ParseMinus(NatText(m), m);
    } else {
      ParseDigits(NatText(m));
    }
  }

  /** An integer percentage lands in the bucket its value says. */
  lemma ReadabilityOfPercent(n: int)
    ensures ReadabilityStatus(DecimalText(n) + "%") ==
      if n >= 75 then Good else if n >= 50 then NeedsImprovement else Bad
  {
    var s := DecimalText(n);
    var m := if n < 0 then -n else n;
    NatTextDigits(m);
    assert '%' !in s by {
      forall i | 0 <= i < |s| ensures s[i] != '%' {
        if n < 0 && i > 0 {
          assert s[i] == NatText(m)[i - 1];
        }
      }
    }
    FirstIndexAfter(s, "%", '%');
    assert (s + "%")[..|s|] == s && (s + "%")[|s| + 1..] == [];
    var stripped := RemoveFirst(s + "%", '%');
    assert stripped == s;
    ParseDecimal(n);
    assert ParseInt(stripped) == Some(n);
    BucketOf(s + "%", n);
  }

  /** The bucket of a score whose number is `n`. */
  lemma BucketOf(score: string, n: int)
    requires ParseInt(RemoveFirst(score, '%')) == Some(n)
    ensures ReadabilityStatus(score) == if n >= 75 then Good else if n >= 50 then NeedsImprovement else Bad
  {
  }

  /** "80%" is good. */
  lemma GoodExample()
    ensures ReadabilityStatus("80%") == Good
  {
    assert DecimalText(80) + "%" == "80%" by {
      assert DecimalText(80) == "80";
    }
    ReadabilityOfPercent(80);
  }

  /** "60%" needs improvement. */
  lemma NeedsImprovementExample()
    ensures ReadabilityStatus("60%") == NeedsImprovement
  {
    assert DecimalText(60) + "%" == "60%" by {
      assert DecimalText(60) == "60";
    }
    ReadabilityOfPercent(60);
  }

  /** "10%" is bad. */
  lemma BadExample()
    ensures ReadabilityStatus("10%") == Bad
  {
    assert DecimalText(10) + "%" == "10%" by {
      assert DecimalText(10) == "10";
    }
    ReadabilityOfPercent(10);
  }

  /** A score with no number in it reads as `NaN`, which is bad. */
  lemma NotANumberExample()
    ensures ParseInt(RemoveFirst("N/A", '%')) == None
    ensures ReadabilityStatus("N/A") == Bad
  {
  }

  /** `feedback.readability_score || "70%"` as `getReadabilityStatus` takes
      it: a falsy score is replaced by "70%", a truthy one is kept, and
      `None` when that is not a string, on which `replace` throws. */
  function ScoreText(readabilityScore: TextMember): (score: Option<string>)
    ensures score.None? <==> readabilityScore.NotText? && readabilityScore.truthy
    ensures score.Some? ==> score.value != ""
    ensures IsTruthy(readabilityScore) && readabilityScore.Text? ==> score == Some(readabilityScore.text)
    ensures !IsTruthy(readabilityScore) ==> score == Some("70%")
  {
    match readabilityScore
    case Text(text) => if text != "" then Some(text) else Some("70%")
    case NotText(truthy) => if truthy then None else Some("70%")
    case Absent => Some("70%")
  }

  /** Without a truthy score the analysis reports "70%", which needs
      improvement. */
  lemma DefaultReadability(readabilityScore: TextMember)
    requires !IsTruthy(readabilityScore)
    ensures ScoreText(readabilityScore) == Some("70%")
    ensures ReadabilityStatus(ScoreText(readabilityScore).value) == NeedsImprovement
  {
    assert DecimalText(70) + "%" == "70%" by {
      assert DecimalText(70) == "70";
    }
    ReadabilityOfPercent(70);
  }

  // ----------------------------------------------------- feedback cleaning

  /** `text.replace(/\n/g, " ")`. */
  function ReplaceNewlines(s: string): (r: string)
    ensures |r| == |s| && '\n' !in r
    ensures forall i :: 0 <= i < |s| && s[i] != '\n' ==> r[i] == s[i]
    ensures forall i :: 0 <= i < |s| && s[i] == '\n' ==> r[i] == ' '
  {
    seq(|s|, i requires 0 <= i < |s| => if s[i] == '\n' then ' ' else s[i])
  }

  /** Whitespace occurs only as single spaces. */
  predicate Tidy(s: string) {
    NoDoubleSpace(s) && forall i :: 0 <= i < |s| && IsSpace(s[i]) ==> s[i] == ' '
  }

  lemma TidySlice(s: string, i: nat, j: nat)
    requires Tidy(s) && i <= j <= |s|
    ensures Tidy(s[i..j])
  {
    NoDoubleSpaceSlice(s, i, j);
    var t := s[i..j];
    forall k | 0 <= k < |t| && IsSpace(t[k]) ensures t[k] == ' ' {
      assert t[k] == s[i + k];
    }
  }

  /** `text.replace(/\s+/g, " ")`: every maximal whitespace run becomes one
      space. The result is tidy, and it is empty, or starts with whitespace,
      exactly when the input is. */
  function CollapseSpaces(s: string): (r: string)
    ensures Tidy(r)
    ensures r == [] <==> s == []
    ensures r != [] ==> IsSpace(r[0]) == IsSpace(s[0])
    decreases |s|
  {
    if s == [] then []
    else if IsSpace(s[0]) then
      var n := Span(s, true);
      var rest := CollapseSpaces(s[n..]);
      assert rest != [] ==> !IsSpace(rest[0]);
      assert ([' '] + rest)[1..] == rest;
      [' '] + rest
    else
      var rest := CollapseSpaces(s[1..]);
      assert ([s[0]] + rest)[1..] == rest;
      [s[0]] + rest
  }

  /** The characters of `s` that are not whitespace, in order. */
  function Visible(s: string): string {
    if s == [] then [] else (if IsSpace(s[0]) then [] else [s[0]]) + Visible(s[1..])
  }

  lemma {:induction false} VisibleAppend(a: string, b: string)
    ensures Visible(a + b) == Visible(a) + Visible(b)
  {
    if a == [] {
      assert a + b == b;
    } else {
      assert (a + b)[1..] == a[1..] + b;
      VisibleAppend(a[1..], b);
    }
  }

  lemma {:induction false} VisibleAllSpace(s: string)
    requires AllSpace(s)
    ensures Visible(s) == []
  {
    if s != [] {
      VisibleAllSpace(s[1..]);
    }
  }

  /** Collapsing whitespace keeps every other character, in order. */
  lemma {:induction false} CollapseKeepsText(s: string)
    ensures Visible(CollapseSpaces(s)) == Visible(s)
    decreases |s|
  {
    if s != [] {
      if IsSpace(s[0]) {
        var n := Span(s, true);
        CollapseKeepsText(s[n..]);
        assert s == s[..n] + s[n..];
        VisibleAppend(s[..n], s[n..]);
        VisibleAllSpace(s[..n]);
        VisibleAppend([' '], CollapseSpaces(s[n..]));
      } else {
        CollapseKeepsText(s[1..]);
        VisibleAppend([s[0]], CollapseSpaces(s[1..]));
      }
    }
  }

  /** The runs of a text with every whitespace run replaced by one space. */
  function Squeeze(runs: seq<string>): seq<string> {
    if runs == [] then [] else [if AllSpace(runs[0]) then " " else runs[0]] + Squeeze(runs[1..])
  }

  /** A word in front passes through the collapse unchanged. */
  lemma {:induction false} CollapseWord(w: string, t: string)
    requires NoSpace(w)
    ensures CollapseSpaces(w + t) == w + CollapseSpaces(t)
    decreases |w|
  {
    if w == [] {
      assert w + t == t;
    } else {
      var s := w + t;
      assert s[0] == w[0] && s[1..] == w[1..] + t;
      CollapseWord(w[1..], t);
      assert [w[0]] + (w[1..] + CollapseSpaces(t)) == w + CollapseSpaces(t);
    }
  }

  /** `replace(/\s+/g, " ")` replaces each maximal whitespace run of the text,
      and nothing else, by exactly one space. */
  lemma {:induction false} CollapseSqueezes(s: string)
    ensures CollapseSpaces(s) == Concat(Squeeze(Tokenize(s)))
    decreases |s|
  {
    if s != [] {
      var n := Span(s, IsSpace(s[0]));
      var head, rest := s[..n], Tokenize(s[n..]);
      assert Tokenize(s) == [head] + rest;
      assert Squeeze([head] + rest) == [if AllSpace(head) then " " else head] + Squeeze(rest) by {
        assert ([head] + rest)[1..] == rest;
      }
      CollapseSqueezes(s[n..]);
      if IsSpace(s[0]) {
        assert AllSpace(head);
        ConcatCons(" ", Squeeze(rest));
      } else {
        assert NoSpace(head) && !AllSpace(head);
        ConcatCons(head, Squeeze(rest));
        assert s == head + s[n..];
        CollapseWord(head, s[n..]);
      }
    }
  }

  lemma CollapseExample()
    ensures CollapseSpaces("a \n b") == "a b"
  {
    var s := "a \n b";
    assert s[0] == 'a' && s[1..] == " \n b";
    var t := " \n b";
    assert Span(t, true) == 3 by {
      assert t[1..][1..][1..] == "b";
    }
    assert t[3..] == "b";
  }

  // The length of a match of `/\s*\*\s*/` at the start of `s`, or 0 when
  // there is none: there is one exactly when the longest whitespace prefix
  // is followed by a `*`, and it then spans that prefix, the `*` and all the
  // whitespace after it.
  function SeparatorAt(s: string): (n: nat)
    ensures n <= |s|
    ensures var b := Span(s, true); n == 0 <==> b == |s| || s[b] != '*'
    ensures n > 0 ==> var b := Span(s, true);
      && b < n && s[b] == '*' && AllSpace(s[..b]) && AllSpace(s[b + 1..n])
      && (n < |s| ==> !IsSpace(s[n]))
  {
    var before := Span(s, true);
    assert AllSpace(s[..before]);
    if before < |s| && s[before] == '*' then
      var after := Span(s[before + 1..], true);
      assert s[before + 1..before + 1 + after] == s[before + 1..][..after];
      before + 1 + after
    else
      0
  }

  // `split(/\s*\*\s*/)` scanning from the current position: `piece` is the
  // text since the end of the last separator.
  function SplitFrom(s: string, piece: string): seq<string>
    decreases |s|
  {
    if s == [] then [piece]
    else
      var n := SeparatorAt(s);
      if n > 0 then [piece] + SplitFrom(s[n..], "")
      else SplitFrom(s[1..], piece + [s[0]])
  }

  /** `filter(Boolean)` on strings. */
  function NonEmpty(parts: seq<string>): (r: seq<string>)
    ensures forall k :: 0 <= k < |r| ==> r[k] != "" && r[k] in parts
  {
    if parts == [] then []
    else (if parts[0] == "" then [] else [parts[0]]) + NonEmpty(parts[1..])
  }

  /** `filter(Boolean)` on one part drops it when it is empty and keeps it
      otherwise. */
  lemma NonEmptyOne(x: string)
    ensures NonEmpty([x]) == if x == "" then [] else [x]
  {
    assert [x][1..] == [];
  }

  /** `filter(Boolean)` filters the parts one by one: the filter of two lists
      joined is the two filters joined. */
  lemma {:induction false} NonEmptyAppend(a: seq<string>, b: seq<string>)
    ensures NonEmpty(a + b) == NonEmpty(a) + NonEmpty(b)
    decreases |a|
  {
    if a == [] {
      assert a + b == b;
    } else {
      var head: seq<string> := if a[0] == "" then [] else [a[0]];
      var ab := a + b;
      assert ab != [] && ab[0] == a[0] && ab[1..] == a[1..] + b;
      assert NonEmpty(ab) == head + NonEmpty(a[1..] + b);
      NonEmptyAppend(a[1..], b);
      assert NonEmpty(a) == head + NonEmpty(a[1..]);
      AppendAssoc(head, NonEmpty(a[1..]), NonEmpty(b));
    }
  }

  lemma AppendAssoc(x: seq<string>, y: seq<string>, z: seq<string>)
    ensures x + (y + z) == x + y + z
  {
  }

  /** `map((item) => item.trim())`: one item per part, each empty or starting
      and ending with a visible character, and each with the visible
      characters of its part. */
  function TrimAll(parts: seq<string>): (r: seq<string>)
    ensures |r| == |parts|
    ensures forall k :: 0 <= k < |r| ==> r[k] == [] || (!IsSpace(r[k][0]) && !IsSpace(r[k][|r[k]| - 1]))
    ensures forall k :: 0 <= k < |r| ==> Visible(r[k]) == Visible(parts[k])
  {
    forall k | 0 <= k < |parts|
      ensures Visible(Trim(parts[k])) == Visible(parts[k])
      ensures var t := Trim(parts[k]); t == [] || (!IsSpace(t[0]) && !IsSpace(t[|t| - 1]))
    {
      TrimEnds(parts[k]);
      TrimKeepsText(parts[k]);
    }
    seq(|parts|, k requires 0 <= k < |parts| => Trim(parts[k]))
  }

  /** `cleanFeedback(text)`. */
  function CleanFeedback(text: string): seq<string> {
    var collapsed := CollapseSpaces(ReplaceNewlines(text));
    TrimAll(NonEmpty(SplitFrom(Trim(collapsed), "")))
  }

  /** A clean feedback item: not empty, trimmed, no `*`, no line break, and
      whitespace only as single spaces. */
  predicate CleanItem(item: string) {
    item != "" && Trim(item) == item && '*' !in item && '\n' !in item && Tidy(item)
  }

  /** What every piece of the split of a tidy text is: tidy, without `*`,
      and not starting with whitespace. */
  predicate GoodPiece(p: string) {
    Tidy(p) && '*' !in p && (p == [] || !IsSpace(p[0]))
  }

  /** The pieces a split produces are good when the text scanned so far
      holds no `*`, everything is tidy and the current piece does not start
      with whitespace. */
  lemma {:induction false} StarPieces(s: string, piece: string)
    requires Tidy(piece + s) && '*' !in piece
    requires piece + s == [] || !IsSpace((piece + s)[0])
    ensures forall k :: 0 <= k < |SplitFrom(s, piece)| ==> GoodPiece(SplitFrom(s, piece)[k])
    decreases |s|
  {
    if s == [] {
      assert piece + s == piece;
    } else {
      var n := SeparatorAt(s);
      if n > 0 {
        SeparatorStep(s, piece);
        StarPieces(s[n..], "");
        var rest := SplitFrom(s[n..], "");
        var parts := SplitFrom(s, piece);
        assert parts == [piece] + rest;
        forall k | 0 <= k < |parts| ensures GoodPiece(parts[k]) {
          if k > 0 {
            assert parts[k] == rest[k - 1];
          }
        }
      } else {
        assert (piece + [s[0]]) + s[1..] == piece + s;
        StarPieces(s[1..], piece + [s[0]]);
      }
    }
  }

  /** At a separator, the piece ends good and scanning resumes, tidy, at a
      character that is not whitespace. */
  lemma SeparatorStep(s: string, piece: string)
    requires Tidy(piece + s) && '*' !in piece
    requires piece + s == [] || !IsSpace((piece + s)[0])
    requires SeparatorAt(s) > 0
    ensures GoodPiece(piece)
    ensures var rest := s[SeparatorAt(s)..];
      Tidy("" + rest) && (rest == [] || !IsSpace(("" + rest)[0]))
  {
    var n := SeparatorAt(s);
    var whole := piece + s;
    TidySlice(whole, 0, |piece|);
    assert whole[..|piece|] == piece;
    TidySlice(whole, |piece| + n, |whole|);
    assert whole[|piece| + n..] == "" + s[n..];
    if piece != [] {
      assert piece[0] == whole[0];
    }
  }

  /** A piece that is tidy, holds no `*` and starts with a visible character
      trims to a clean item. */
  lemma CleanPiece(p: string)
    requires p != [] && Tidy(p) && '*' !in p && !IsSpace(p[0])
    ensures CleanItem(Trim(p))
  {
    TrimSolidStart(p);
    var i, j := TrimSlice(p);
    TidySlice(p, i, j);
    TrimEnds(p);
    TrimTrimmed(Trim(p));
    var t := Trim(p);
    assert '*' !in t by {
      forall k | 0 <= k < |t| ensures t[k] != '*' {
        assert t[k] == p[i + k];
      }
    }
    assert IsSpace('\n');
  }

  /** Every item of `cleanFeedback` is a clean item. */
  lemma CleanFeedbackItems(text: string)
    ensures forall k :: 0 <= k < |CleanFeedback(text)| ==> CleanItem(CleanFeedback(text)[k])
  {
    var collapsed := CollapseSpaces(ReplaceNewlines(text));
    var t := Trim(collapsed);
    var i, j := TrimSlice(collapsed);
    TidySlice(collapsed, i, j);
    TrimEnds(collapsed);
    assert "" + t == t;
    StarPieces(t, "");
    var pieces := SplitFrom(t, "");
    var parts := NonEmpty(pieces);
    forall k | 0 <= k < |parts| ensures CleanItem(Trim(parts[k])) {
      var j :| 0 <= j < |pieces| && pieces[j] == parts[k];
      assert GoodPiece(pieces[j]);
      CleanPiece(parts[k]);
    }
  }

  /** The characters of `s` other than `*`. */
  function Unstarred(s: string): string {
    if s == [] then [] else (if s[0] == '*' then [] else [s[0]]) + Unstarred(s[1..])
  }

  lemma {:induction false} UnstarredAppend(a: string, b: string)
    ensures Unstarred(a + b) == Unstarred(a) + Unstarred(b)
  {
    if a == [] {
      assert a + b == b;
    } else {
      assert (a + b)[1..] == a[1..] + b;
      UnstarredAppend(a[1..], b);
    }
  }

  /** The words of a feedback text: its characters other than whitespace and
      `*`, in order. */
  function Content(s: string): string {
    Unstarred(Visible(s))
  }

  lemma ContentAppend(a: string, b: string)
    ensures Content(a + b) == Content(a) + Content(b)
  {
    VisibleAppend(a, b);
    UnstarredAppend(Visible(a), Visible(b));
  }

  /** Replacing line breaks by spaces keeps every other character. */
  lemma {:induction false} ReplaceNewlinesKeepsText(s: string)
    ensures Visible(ReplaceNewlines(s)) == Visible(s)
    decreases |s|
  {
    if s != [] {
      var r := ReplaceNewlines(s);
      ReplaceNewlinesKeepsText(s[1..]);
      assert r[1..] == ReplaceNewlines(s[1..]);
      assert IsSpace(r[0]) == IsSpace(s[0]);
    }
  }

  /** Trimming drops whitespace only. */
  lemma TrimKeepsText(s: string)
    ensures Visible(Trim(s)) == Visible(s)
  {
    var i, j := TrimSlice(s);
    assert s == s[..i] + s[i..j] + s[j..];
    VisibleAppend(s[..i] + s[i..j], s[j..]);
    VisibleAppend(s[..i], s[i..j]);
    VisibleAllSpace(s[..i]);
    VisibleAllSpace(s[j..]);
  }

  /** Content of a string cut in two. */
  lemma ContentSplit(s: string, n: nat)
    requires n <= |s|
    ensures Content(s) == Content(s[..n]) + Content(s[n..])
  {
    assert s == s[..n] + s[n..];
    ContentAppend(s[..n], s[n..]);
  }

  /** A star between two whitespace runs holds no words. */
  lemma StarContent(lead: string, trail: string)
    requires AllSpace(lead) && AllSpace(trail)
    ensures Content(lead + "*" + trail) == []
  {
    VisibleAppend(lead + "*", trail);
    VisibleAppend(lead, "*");
    VisibleAllSpace(lead);
    VisibleAllSpace(trail);
    assert Visible("*") == "*" by {
      assert "*"[1..] == [];
    }
    assert Unstarred("*") == [] by {
      assert "*"[1..] == [];
    }
  }

  /** A separator holds no words. */
  lemma SeparatorContent(s: string)
    requires SeparatorAt(s) > 0
    ensures Content(s[..SeparatorAt(s)]) == []
  {
    var n := SeparatorAt(s);
    var before := Span(s, true);
    var rest := s[before + 1..];
    var after := Span(rest, true);
    var lead, trail := s[..before], rest[..after];
    assert s[..n] == lead + "*" + trail;
    StarContent(lead, trail);
  }

  /** At a separator the scan ends the piece and starts afresh after it. */
  lemma SeparatorSplit(s: string, piece: string)
    requires SeparatorAt(s) > 0
    ensures SplitFrom(s, piece) == [piece] + SplitFrom(s[SeparatorAt(s)..], "")
  {
  }

  lemma ConcatCons(t: string, ts: seq<string>)
    ensures Concat([t] + ts) == t + Concat(ts)
  {
    assert ([t] + ts)[1..] == ts;
  }

  /** One separator step of the split. */
  lemma SplitAtSeparator(s: string, piece: string)
    requires SeparatorAt(s) > 0
    requires Content(Concat(SplitFrom(s[SeparatorAt(s)..], ""))) == Content(s[SeparatorAt(s)..])
    ensures Content(Concat(SplitFrom(s, piece))) == Content(piece + s)
  {
    var n := SeparatorAt(s);
    var rest := SplitFrom(s[n..], "");
    var joined := Concat(rest);
    SeparatorSplit(s, piece);
    ConcatCons(piece, rest);
    ContentAppend(piece, joined);
    SeparatorContent(s);
    ContentSplit(s, n);
    ContentAppend(piece, s);
  }

  /** Splitting at the separators drops nothing but the separators. */
  lemma {:induction false} SplitKeepsContent(s: string, piece: string)
    ensures Content(Concat(SplitFrom(s, piece))) == Content(piece + s)
    decreases |s|
  {
    if s == [] {
      assert piece + s == piece;
      assert Concat([piece]) == piece + Concat([]);
    } else {
      var n := SeparatorAt(s);
      if n > 0 {
        SplitKeepsContent(s[n..], "");
        assert "" + s[n..] == s[n..];
        SplitAtSeparator(s, piece);
      } else {
        assert (piece + [s[0]]) + s[1..] == piece + s;
        SplitKeepsContent(s[1..], piece + [s[0]]);
      }
    }
  }

  /** `filter(Boolean)` drops nothing but empty strings. */
  lemma {:induction false} NonEmptyConcat(parts: seq<string>)
    ensures Concat(NonEmpty(parts)) == Concat(parts)
  {
    if parts != [] {
      NonEmptyConcat(parts[1..]);
      var head := if parts[0] == "" then [] else [parts[0]];
      ConcatAppend(head, NonEmpty(parts[1..]));
      if parts[0] != "" {
        assert Concat([parts[0]]) == parts[0] + Concat([]);
      }
    }
  }

  /** Trimming every item drops whitespace only. */
  lemma {:induction false} TrimAllKeepsContent(parts: seq<string>)
    ensures Content(Concat(TrimAll(parts))) == Content(Concat(parts))
  {
    if parts != [] {
      var trimmed := TrimAll(parts);
      TrimAllKeepsContent(parts[1..]);
      assert trimmed[1..] == TrimAll(parts[1..]);
      ContentAppend(trimmed[0], Concat(trimmed[1..]));
      ContentAppend(parts[0], Concat(parts[1..]));
      TrimKeepsText(parts[0]);
    }
  }

  /** `cleanFeedback` loses no word: the items together hold every character
      of the text that is not whitespace or `*`, in order. */
  lemma CleanFeedbackKeepsContent(text: string)
    ensures Content(Concat(CleanFeedback(text))) == Content(text)
  {
    var collapsed := CollapseSpaces(ReplaceNewlines(text));
    var pieces := SplitFrom(Trim(collapsed), "");
    TrimAllKeepsContent(NonEmpty(pieces));
    NonEmptyConcat(pieces);
    SplitKeepsContent(Trim(collapsed), "");
    assert "" + Trim(collapsed) == Trim(collapsed);
    TrimKeepsText(collapsed);
    CollapseKeepsText(ReplaceNewlines(text));
    ReplaceNewlinesKeepsText(text);
  }

  /** `items.join(" * ")`: the text of a bulleted list. */
  function Bulleted(items: seq<string>): string
    requires items != []
    decreases |items|
  {
    if |items| == 1 then items[0] else items[0] + " * " + Bulleted(items[1..])
  }

  /** Two tidy texts stay tidy side by side unless whitespace meets
      whitespace where they join. */
  lemma TidyJoin(a: string, b: string)
    requires Tidy(a) && Tidy(b)
    requires a == [] || b == [] || !IsSpace(a[|a| - 1]) || !IsSpace(b[0])
    ensures Tidy(a + b)
  {
    var t := a + b;
    forall i | 0 <= i < |t| - 1 ensures !(IsSpace(t[i]) && IsSpace(t[i + 1])) {
      if i + 1 < |a| {
        assert t[i] == a[i] && t[i + 1] == a[i + 1];
      } else if i >= |a| {
        assert t[i] == b[i - |a|] && t[i + 1] == b[i - |a| + 1];
      } else {
        assert t[i] == a[|a| - 1] && t[i + 1] == b[0];
      }
    }
    forall i | 0 <= i < |t| && IsSpace(t[i]) ensures t[i] == ' ' {
      if i < |a| {
        assert t[i] == a[i];
      } else {
        assert t[i] == b[i - |a|];
      }
    }
  }

  /** A clean item starts and ends with a visible character. */
  lemma CleanItemEnds(item: string)
    requires CleanItem(item)
    ensures !IsSpace(item[0]) && !IsSpace(item[|item| - 1])
  {
    TrimEnds(item);
  }

  /** A text `cleanFeedback` leaves alone until the split: not empty, with
      visible ends, no line break and whitespace only as single spaces. */
  predicate SettledText(b: string) {
    b != [] && !IsSpace(b[0]) && !IsSpace(b[|b| - 1]) && '\n' !in b && Tidy(b)
  }

  /** The bulleted text of clean items is settled. */
  lemma {:induction false} BulletedFacts(items: seq<string>)
    requires items != [] && forall k :: 0 <= k < |items| ==> CleanItem(items[k])
    ensures SettledText(Bulleted(items))
    decreases |items|
  {
    CleanItemEnds(items[0]);
    if |items| > 1 {
      var rest := Bulleted(items[1..]);
      BulletedFacts(items[1..]);
      assert forall k :: 0 <= k < |items[1..]| ==> items[1..][k] == items[k + 1];
      var star := " * ";
      assert Tidy(star) by {
        assert star[0] == ' ' && star[1] == '*' && star[2] == ' ';
      }
      TidyJoin(items[0], star);
      TidyJoin(items[0] + star, rest);
      var b := items[0] + star + rest;
      assert b[0] == items[0][0] && b[|b| - 1] == rest[|rest| - 1];
      assert '\n' !in star;
    }
  }

  /** No separator starts in text without `*` before its last visible
      character. */
  lemma NoSeparatorIn(item: string, tail: string)
    requires item != [] && '*' !in item && !IsSpace(item[|item| - 1])
    ensures SeparatorAt(item + tail) == 0
  {
    var s := item + tail;
    var b := Span(s, true);
    assert s[|item| - 1] == item[|item| - 1];
    assert b < |item|;
    assert s[b] == item[b];
  }

  /** Away from a separator the scan moves one character into the piece. */
  lemma PlainStep(s: string, piece: string)
    requires s != [] && SeparatorAt(s) == 0
    ensures SplitFrom(s, piece) == SplitFrom(s[1..], piece + [s[0]])
  {
  }

  lemma PieceRest(item: string, tail: string, piece: string)
    requires item != [] && '*' !in item && !IsSpace(item[|item| - 1])
    ensures (item + tail)[1..] == item[1..] + tail
    ensures '*' !in item[1..] && (item[1..] == [] || !IsSpace(item[1..][|item[1..]| - 1]))
    ensures (piece + [item[0]]) + item[1..] == piece + item
  {
    assert item[1..] == [] || item[1..][|item[1..]| - 1] == item[|item| - 1];
  }

  /** The scan passes over text without `*` that ends with a visible
      character: no separator starts inside it. */
  lemma {:induction false} ScanPiece(item: string, tail: string, piece: string)
    requires '*' !in item && (item == [] || !IsSpace(item[|item| - 1]))
    ensures SplitFrom(item + tail, piece) == SplitFrom(tail, piece + item)
    decreases |item|
  {
    if item == [] {
      assert item + tail == tail && piece + item == piece;
    } else {
      var s, next := item + tail, piece + [item[0]];
      PieceRest(item, tail, piece);
      NoSeparatorIn(item, tail);
      PlainStep(s, piece);
      ScanPiece(item[1..], tail, next);
    }
  }

  /** `" * "` before a visible character (or the end) is one separator. */
  lemma StarStep(rest: string, piece: string)
    requires rest == [] || !IsSpace(rest[0])
    ensures SplitFrom(" * " + rest, piece) == [piece] + SplitFrom(rest, "")
  {
    var s := " * " + rest;
    assert s[0] == ' ' && s[1] == '*' && s[2] == ' ';
    assert Span(s, true) == 1 by {
      assert s[1..][0] == '*';
    }
    assert s[2..][0] == ' ';
    assert Span(s[2..][1..], true) == 0 by {
      assert s[2..][1..] == rest;
    }
    assert SeparatorAt(s) == 3;
    assert s[3..] == rest;
  }

  /** An item, `" * "` and the rest: the scan ends the piece with the item
      and starts afresh on the rest. */
  lemma SplitJoin(item: string, rest: string, piece: string)
    requires CleanItem(item) && (rest == [] || !IsSpace(rest[0]))
    ensures SplitFrom(item + (" * " + rest), piece) == [piece + item] + SplitFrom(rest, "")
  {
    CleanItemEnds(item);
    ScanPiece(item, " * " + rest, piece);
    StarStep(rest, piece + item);
  }

  lemma BulletedCons(items: seq<string>)
    requires |items| > 1
    ensures Bulleted(items) == items[0] + (" * " + Bulleted(items[1..]))
  {
  }

  lemma CleanTail(items: seq<string>)
    requires items != [] && forall k :: 0 <= k < |items| ==> CleanItem(items[k])
    ensures forall k :: 0 <= k < |items[1..]| ==> CleanItem(items[1..][k])
  {
    assert forall k :: 0 <= k < |items[1..]| ==> items[1..][k] == items[k + 1];
  }

  lemma FreshFirst(items: seq<string>)
    requires items != []
    ensures [("" + items[0])] + items[1..] == items
  {
    assert "" + items[0] == items[0];
  }

  /** Splitting the bulleted text gives back the items, the first one after
      the text already scanned. */
  lemma {:induction false} SplitBulleted(items: seq<string>, piece: string)
    requires items != [] && forall k :: 0 <= k < |items| ==> CleanItem(items[k])
    ensures SplitFrom(Bulleted(items), piece) == [piece + items[0]] + items[1..]
    decreases |items|
  {
    if |items| == 1 {
      CleanItemEnds(items[0]);
      ScanPiece(items[0], [], piece);
      assert items[0] + [] == items[0];
    } else {
      var rest := Bulleted(items[1..]);
      BulletedCons(items);
      CleanTail(items);
      BulletedFacts(items[1..]);
      SplitJoin(items[0], rest, piece);
      SplitBulleted(items[1..], "");
      FreshFirst(items[1..]);
    }
  }

  /** Splitting the bulleted text from its start gives back the items. */
  lemma SplitBulletedItems(items: seq<string>)
    requires items != [] && forall k :: 0 <= k < |items| ==> CleanItem(items[k])
    ensures SplitFrom(Bulleted(items), "") == items
  {
    SplitBulleted(items, "");
    FreshFirst(items);
  }

  /** Tidy text has nothing to collapse. */
  lemma {:induction false} CollapseTidy(s: string)
    requires Tidy(s)
    ensures CollapseSpaces(s) == s
    decreases |s|
  {
    if s != [] {
      TidySlice(s, 1, |s|);
      CollapseTidy(s[1..]);
      if IsSpace(s[0]) {
        assert |s| > 1 ==> !IsSpace(s[1]);
        assert Span(s, true) == 1;
      }
    }
  }

  lemma {:induction false} NonEmptyKeeps(parts: seq<string>)
    requires forall k :: 0 <= k < |parts| ==> parts[k] != ""
    ensures NonEmpty(parts) == parts
    decreases |parts|
  {
    if parts != [] {
      NonEmptyKeeps(parts[1..]);
    }
  }

  lemma ReplaceNoNewline(s: string)
    requires '\n' !in s
    ensures ReplaceNewlines(s) == s
  {
  }

  lemma TrimAllTrimmed(parts: seq<string>)
    requires forall k :: 0 <= k < |parts| ==> Trim(parts[k]) == parts[k]
    ensures TrimAll(parts) == parts
  {
  }

  /** `cleanFeedback` of a settled text is its split, when filtering and
      trimming leave the pieces alone. */
  lemma CleanFeedbackOfSettled(b: string, items: seq<string>)
    requires SettledText(b) && SplitFrom(b, "") == items
    requires NonEmpty(items) == items && TrimAll(items) == items
    ensures CleanFeedback(b) == items
  {
    ReplaceNoNewline(b);
    CollapseTidy(b);
    TrimTrimmed(b);
  }

  /** `cleanFeedback` undoes joining clean items with `" * "`: the split
      falls exactly at the separators and at nothing else. */
  lemma CleanFeedbackBulleted(items: seq<string>)
    requires items != [] && forall k :: 0 <= k < |items| ==> CleanItem(items[k])
    ensures CleanFeedback(Bulleted(items)) == items
  {
    BulletedFacts(items);
    SplitBulletedItems(items);
    NonEmptyKeeps(items);
    TrimAllTrimmed(items);
    CleanFeedbackOfSettled(Bulleted(items), items);
  }

  // ------------------------------------------------------ the status poll

  /** One element of `output.extract_feedback`, member by member. An element
      that is not an object reads as one with every member absent: the
      handler throws on it either way. */
  datatype Feedback = Feedback(
    readabilityScore: TextMember,
    grammar: TextMember,
    legal: TextMember,
    brandVoice: TextMember,
    highlighted: TextMember)

  /** `output.extract_feedback`: falsy or absent, a list, or a truthy value
      that is not a list. */
  datatype FeedbackList = NoFeedback | Items(items: seq<Feedback>) | NotAList

  /** `data.output` of an analysis run: `extract_feedback` and `review_copy`. */
  datatype AnalyzeOutput = AnalyzeOutput(extractFeedback: FeedbackList, reviewCopy: TextMember)

  /** The analysis the handler answers with, apart from `characterCount`. */
  datatype Report = Report(
    score: string,
    status: Readability,
    details: TextMember,
    grammar: seq<string>,
    legal: seq<string>,
    brandVoice: seq<string>,
    highlighted: TextMember)

  /** The whole JSON answer. */
  datatype Analysis = Analysis(report: Report, characterCount: nat)

  const Workflow := "WCFG-c611eac4-35bd-405b-8887-93a2450a4d8e"
  const MaxAttempts: nat := 10

  /** The answer assembled from a finished run. The first feedback element
      is read; reading it throws when there is none (an empty list, or a
      value that is not a list), when its score is truthy but not a string,
      and when a member `cleanFeedback` is applied to is not a string. */
  function Assemble(output: AnalyzeOutput): Step<Report>
    requires !output.extractFeedback.NoFeedback?
  {
    if output.extractFeedback.NotAList? || output.extractFeedback.items == [] then Abort(MalformedPayload)
    else
      var f := output.extractFeedback.items[0];
      var score := ScoreText(f.readabilityScore);
      if score.None? || !f.grammar.Text? || !f.legal.Text? || !f.brandVoice.Text? then Abort(MalformedPayload)
      else
        Done(Report(score.value, ReadabilityStatus(score.value), output.reviewCopy,
          CleanFeedback(f.grammar.text), CleanFeedback(f.legal.text),
          CleanFeedback(f.brandVoice.text), f.highlighted))
  }

  /** One pass of the loop. There is no `try` inside it: a rejected fetch, a
      non-2xx status other than 404 and a body that does not parse or lacks
      `data` end the request. A 404, and any run that is not both COMPLETE
      and carrying a truthy `extract_feedback`, cost one attempt. */
  function Classify(reply: Reply<AnalyzeOutput>): Step<Report> {
    match reply
    case TransportError => Abort(NetworkError)
    case Http(status, body) =>
      if !IsOk(status) then
        if status == 404 then Retry else Abort(ResultsRejected(status))
      else if body.Unparsable? || body.data.None? then Abort(MalformedPayload)
      else
        var data := body.data.value;
        if data.status == "COMPLETE" && !data.output.extractFeedback.NoFeedback? then Assemble(data.output)
        else Retry
  }

  /** The poll loop of `POST`. */
  method WaitForAnalysis(script: seq<Reply<AnalyzeOutput>>) returns (result: Result<Report, Failure>, fetches: nat)
    requires MaxAttempts <= |script|
    ensures (result, fetches) == Poll(script, Classify, MaxAttempts)
  {
    var attempts := 0;
    while attempts < MaxAttempts
      invariant attempts <= MaxAttempts
      invariant PollFrom(script, Classify, MaxAttempts, attempts) == Poll(script, Classify, MaxAttempts)
    {
      var resultsResponse := script[attempts];
      if resultsResponse.TransportError? {
        return Failure(NetworkError), attempts + 1;
      }
      if !IsOk(resultsResponse.status) {
        if resultsResponse.status == 404 {
          attempts := attempts + 1;
          continue;
        }
        return Failure(ResultsRejected(resultsResponse.status)), attempts + 1;
      }
      if resultsResponse.body.Unparsable? || resultsResponse.body.data.None? {
        return Failure(MalformedPayload), attempts + 1;
      }
      var data := resultsResponse.body.data.value;
      if data.status == "COMPLETE" && !data.output.extractFeedback.NoFeedback? {
        var feedbacks := data.output.extractFeedback;
        if feedbacks.NotAList? || feedbacks.items == [] {
          return Failure(MalformedPayload), attempts + 1;
        }
        var feedback := feedbacks.items[0];
        var score := ScoreText(feedback.readabilityScore);
        if score.None? {
          // `replace` is not a function of the score
          return Failure(MalformedPayload), attempts + 1;
        }
        var status := ReadabilityStatus(score.value);
        if !feedback.grammar.Text? || !feedback.legal.Text? || !feedback.brandVoice.Text? {
          return Failure(MalformedPayload), attempts + 1;
        }
        var report := Report(score.value, status, data.output.reviewCopy,
          CleanFeedback(feedback.grammar.text), CleanFeedback(feedback.legal.text),
          CleanFeedback(feedback.brandVoice.text), feedback.highlighted);
        return Success(report), attempts + 1;
      }
      attempts := attempts + 1;
    }
    return Failure(Timeout), attempts;
  }

  /** A reply after which the loop goes on: a 404, or a well-formed report of
      a run that is not finished with feedback. */
  predicate Pending(reply: Reply<AnalyzeOutput>) {
    && reply.Http?
    && (|| reply.status == 404
        || (&& IsOk(reply.status) && reply.body.Parsed? && reply.body.data.Some?
            && !(reply.body.data.value.status == "COMPLETE" && !reply.body.data.value.output.extractFeedback.NoFeedback?)))
  }

  /** The outcome of the poll loop: at most 10 status requests, all but the
      last of them pending; the loop times out exactly when the last one is
      pending too, which happens only after all 10; otherwise the last reply
      decides. */
  lemma AnalyzeOutcome(script: seq<Reply<AnalyzeOutput>>)
    requires MaxAttempts <= |script|
    ensures var (result, fetches) := Poll(script, Classify, MaxAttempts);
      && 1 <= fetches <= MaxAttempts
      && (forall j :: 0 <= j < fetches - 1 ==> Pending(script[j]))
      && (Pending(script[fetches - 1]) <==> result == Failure(Timeout))
      && (Pending(script[fetches - 1]) ==> fetches == MaxAttempts)
      && (!Pending(script[fetches - 1]) ==> result == Verdict(Classify(script[fetches - 1])))
  {
    PollCharacterised(script, Classify, MaxAttempts);
    var (result, fetches) := Poll(script, Classify, MaxAttempts);
    forall reply: Reply<AnalyzeOutput> ensures Classify(reply).Retry? <==> Pending(reply) {
      if reply.Http? && IsOk(reply.status) && reply.body.Parsed? && reply.body.data.Some? {
        var output := reply.body.data.value.output;
        if reply.body.data.value.status == "COMPLETE" && !output.extractFeedback.NoFeedback? {
          assert !Assemble(output).Retry?;
        }
      }
    }
    var last := script[fetches - 1];
    if !Pending(last) {
      assert !Verdict(Classify(last)).Failure? || Verdict(Classify(last)).error != Timeout;
    }
  }

  /** A status other than 404 ends the loop at once: nothing further is
      fetched. */
  lemma RejectedStops(script: seq<Reply<AnalyzeOutput>>, k: nat)
    requires MaxAttempts <= |script| && k < MaxAttempts
    requires forall j :: 0 <= j < k ==> Pending(script[j])
    requires script[k].Http? && !IsOk(script[k].status) && script[k].status != 404
    ensures Poll(script, Classify, MaxAttempts) == (Failure(ResultsRejected(script[k].status)), k + 1)
  {
    forall j | 0 <= j < k ensures Classify(script[j]).Retry? {
      var reply := script[j];
      if reply.status != 404 {
        assert reply.body.data.Some?;
      }
    }
    PollFromStopsAtFirstDecision(script, Classify, MaxAttempts, 0, k);
  }

  /** A finished run whose `extract_feedback` is truthy but not a list, or
      whose first feedback has a truthy score that is not a string, ends
      the request at once: the element access or the score's `replace`
      throws. Nothing further is fetched. */
  lemma WrongTypeStops(script: seq<Reply<AnalyzeOutput>>, k: nat)
    requires MaxAttempts <= |script| && k < MaxAttempts
    requires forall j :: 0 <= j < k ==> Pending(script[j])
    requires script[k].Http? && IsOk(script[k].status) && script[k].body.Parsed? && script[k].body.data.Some?
    requires script[k].body.data.value.status == "COMPLETE"
    requires var list := script[k].body.data.value.output.extractFeedback;
      || list.NotAList?
      || (list.Items? && list.items != [] && list.items[0].readabilityScore.NotText? && list.items[0].readabilityScore.truthy)
    ensures Poll(script, Classify, MaxAttempts) == (Failure(MalformedPayload), k + 1)
  {
    forall j | 0 <= j < k ensures Classify(script[j]).Retry? {
      var reply := script[j];
      if reply.status != 404 {
        assert reply.body.data.Some?;
      }
    }
    PollFromStopsAtFirstDecision(script, Classify, MaxAttempts, 0, k);
  }

  /** Two 404s and then a finished run with full feedback: three status
      requests and the assembled analysis. */
  lemma NotFoundThenComplete(script: seq<Reply<AnalyzeOutput>>, body: Body<AnalyzeOutput>, f: Feedback, reviewCopy: TextMember)
    requires MaxAttempts <= |script|
    requires body.Parsed? && f.grammar.Text? && f.legal.Text? && f.brandVoice.Text?
    requires f.readabilityScore.Text?
    requires script[0].Http? && script[0].status == 404
    requires script[1].Http? && script[1].status == 404
    requires script[2] == Http(200, Parsed(body.status, Some(RunData("COMPLETE", false, AnalyzeOutput(Items([f]), reviewCopy)))))
    ensures Poll(script, Classify, MaxAttempts).1 == 3
    ensures Poll(script, Classify, MaxAttempts).0.Success?
    ensures Poll(script, Classify, MaxAttempts).0.value.grammar == CleanFeedback(f.grammar.text)
  {
    PollFromStopsAtFirstDecision(script, Classify, MaxAttempts, 0, 2);
  }

  // ------------------------------------------------------------------ POST

  /** The run id the handler goes on with after the start request, or why it
      stops: a rejected fetch, a non-2xx status, a body that does not parse,
      or a missing or empty `data.id`. */
  function CheckedRun(start: StartReply): (r: Result<string, Failure>)
    ensures r.Success? ==> r.value != ""
  {
    match start
    case StartTransportError => Failure(NetworkError)
    case StartHttp(status, body) =>
      if !IsOk(status) then Failure(StartRejected(status))
      else if body.StartUnparsable? then Failure(MalformedPayload)
      else if body.data.None? || body.data.value.id.None? || body.data.value.id.value == "" then Failure(NoRunId)
      else Success(body.data.value.id.value)
  }

  /** `POST`: fails before any request without an API key; otherwise starts
      one run with the text, fails before any status request when that does
      not yield a run id, and polls that run. The answer counts the
      characters of the submitted text. */
  method Post(text: string, apiKey: string, start: StartReply, script: seq<Reply<AnalyzeOutput>>)
    returns (result: Result<Analysis, Failure>, calls: seq<Call>)
    requires MaxAttempts <= |script|
    ensures apiKey == "" ==> result == Failure(ApiKeyNotConfigured) && calls == []
    ensures apiKey != "" && CheckedRun(start).Failure? ==>
      result == Failure(CheckedRun(start).error) && calls == [StartRun(Workflow, map["copy" := text])]
    ensures apiKey != "" && CheckedRun(start).Success? ==>
      var (r, n) := Poll(script, Classify, MaxAttempts);
      && calls == [StartRun(Workflow, map["copy" := text])] + Fetches(Workflow, CheckedRun(start).value, n)
      && (r.Success? ==> result == Success(Analysis(r.value, |text|)))
      && (r.Failure? ==> result == Failure(r.error))
  {
    if apiKey == "" {
      return Failure(ApiKeyNotConfigured), [];
    }
    calls := [StartRun(Workflow, map["copy" := text])];
    var started := CheckedRun(start);
    if started.Failure? {
      return Failure(started.error), calls;
    }
    var report, fetches := WaitForAnalysis(script);
    calls := calls + Fetches(Workflow, started.value, fetches);
    if report.Failure? {
      return Failure(report.error), calls;
    }
    result := Success(Analysis(report.value, |text|));
  }
}
