/** The parts of the JavaScript string library that the route handlers use:
    the `\s` class of regular expressions, `trim`, `match(/\S+|\s+/g)`,
    `split` on a one-character separator and `toLowerCase`.
    Strings are sequences of characters; a character stands for one UTF-16
    code unit of the source. */
module Strings {

  /** Membership in `\s`, which is also the set of characters `trim` removes:
      the WhiteSpace and LineTerminator characters of ECMAScript. */
  predicate IsSpace(c: char) {
    || c == ' ' || c == '\t' || c == '\n' || c == '\r' || c == '\U{000B}' || c == '\U{000C}'
    || c == '\U{00A0}' || c == '\U{1680}' || ('\U{2000}' <= c <= '\U{200A}')
    || c == '\U{2028}' || c == '\U{2029}' || c == '\U{202F}' || c == '\U{205F}'
    || c == '\U{3000}' || c == '\U{FEFF}'
  }

  predicate AllSpace(s: string) {
    forall i :: 0 <= i < |s| ==> IsSpace(s[i])
  }

  predicate NoSpace(s: string) {
    forall i :: 0 <= i < |s| ==> !IsSpace(s[i])
  }

  /** No two adjacent whitespace characters. */
  predicate NoDoubleSpace(s: string) {
    forall i :: 0 <= i < |s| - 1 ==> !(IsSpace(s[i]) && IsSpace(s[i + 1]))
  }

  lemma NoDoubleSpaceSlice(s: string, i: nat, j: nat)
    requires NoDoubleSpace(s) && i <= j <= |s|
    ensures NoDoubleSpace(s[i..j])
  {
    var t := s[i..j];
    forall k | 0 <= k < |t| - 1 ensures !(IsSpace(t[k]) && IsSpace(t[k + 1])) {
      assert t[k] == s[i + k] && t[k + 1] == s[i + k + 1];
    }
  }

  // ---------------------------------------------------------------- trim

  /** Leading whitespace removed. */
  function TrimStart(s: string): string {
    if s != [] && IsSpace(s[0]) then TrimStart(s[1..]) else s
  }

  /** Trailing whitespace removed. */
  function TrimEnd(s: string): string {
    if s != [] && IsSpace(s[|s| - 1]) then TrimEnd(s[..|s| - 1]) else s
  }

  /** `String.prototype.trim`: whitespace removed at both ends. */
  function Trim(s: string): string {
    TrimEnd(TrimStart(s))
  }

  /** `TrimStart` drops a whitespace prefix and stops at a non-whitespace
      character. */
  lemma {:induction false} TrimStartFacts(s: string)
    ensures |TrimStart(s)| <= |s| && TrimStart(s) == s[|s| - |TrimStart(s)|..]
    ensures AllSpace(s[..|s| - |TrimStart(s)|])
    ensures TrimStart(s) == [] || !IsSpace(TrimStart(s)[0])
  {
    if s != [] && IsSpace(s[0]) {
      TrimStartFacts(s[1..]);
      var r := TrimStart(s);
      assert s[1..][|s| - 1 - |r|..] == s[|s| - |r|..];
      var p := s[..|s| - |r|];
      forall i | 0 <= i < |p| ensures IsSpace(p[i]) {
        if i > 0 {
          assert p[i] == s[1..][..|s| - 1 - |r|][i - 1];
        }
      }
    }
  }

  /** `TrimEnd` drops a whitespace suffix and stops at a non-whitespace
      character. */
  lemma {:induction false} TrimEndFacts(s: string)
    ensures |TrimEnd(s)| <= |s| && TrimEnd(s) == s[..|TrimEnd(s)|]
    ensures AllSpace(s[|TrimEnd(s)|..])
    ensures TrimEnd(s) == [] || !IsSpace(TrimEnd(s)[|TrimEnd(s)| - 1])
  {
    if s != [] && IsSpace(s[|s| - 1]) {
      var front := s[..|s| - 1];
      TrimEndFacts(front);
      var r := TrimEnd(s);
      assert front[..|r|] == s[..|r|];
      var q := s[|r|..];
      forall i | 0 <= i < |q| ensures IsSpace(q[i]) {
        if i < |s| - 1 - |r| {
          assert q[i] == front[|r|..][i];
        }
      }
    }
  }

  /** A trimmed string neither starts nor ends with whitespace. */
  lemma TrimEnds(s: string)
    ensures Trim(s) == [] || (!IsSpace(Trim(s)[0]) && !IsSpace(Trim(s)[|Trim(s)| - 1]))
  {
    TrimStartFacts(s);
    TrimEndFacts(TrimStart(s));
    var t, r := TrimStart(s), Trim(s);
    if r != [] {
      assert r[0] == t[0];
    }
  }

  /** The trimmed string is the slice of `s` left between two whitespace runs. */
  lemma TrimSlice(s: string) returns (i: nat, j: nat)
    ensures i <= j <= |s| && Trim(s) == s[i..j]
    ensures AllSpace(s[..i]) && AllSpace(s[j..])
  {
    TrimStartFacts(s);
    TrimEndFacts(TrimStart(s));
    var t := TrimStart(s);
    i := |s| - |t|;
    j := i + |Trim(s)|;
    assert t == s[i..];
    assert Trim(s) == t[..|Trim(s)|];
    assert t[|Trim(s)|..] == s[j..];
  }

  lemma TrimNoSpace(s: string)
    requires NoSpace(s)
    ensures Trim(s) == s
  {
  }

  lemma {:induction false} TrimAllSpace(s: string)
    requires AllSpace(s)
    ensures Trim(s) == ""
  {
    if s != [] {
      TrimAllSpace(s[1..]);
    }
  }

  lemma {:induction false} TrimEndSolidStart(s: string)
    requires s != [] && !IsSpace(s[0])
    ensures TrimEnd(s) != [] && TrimEnd(s)[0] == s[0]
    decreases |s|
  {
    if IsSpace(s[|s| - 1]) {
      TrimEndSolidStart(s[..|s| - 1]);
    }
  }

  /** Trimming a string that does not start with whitespace keeps its first
      character, so the result is empty only for the empty string. */
  lemma TrimSolidStart(s: string)
    requires s != [] && !IsSpace(s[0])
    ensures Trim(s) != [] && Trim(s)[0] == s[0]
  {
    TrimEndSolidStart(s);
  }

  /** A string with no whitespace at either end is its own trim; in
      particular trimming is idempotent. */
  lemma TrimTrimmed(s: string)
    requires s == [] || (!IsSpace(s[0]) && !IsSpace(s[|s| - 1]))
    ensures Trim(s) == s
  {
  }

  // ----------------------------------------------------- tokens and runs

  /** Length of the run of characters at the start of `s` whose whitespace
      class is `space`. */
  function Span(s: string, space: bool): (n: nat)
    ensures n <= |s|
    ensures forall i :: 0 <= i < n ==> IsSpace(s[i]) == space
    ensures n < |s| ==> IsSpace(s[n]) != space
  {
    if s == [] || IsSpace(s[0]) != space then 0 else 1 + Span(s[1..], space)
  }

  /** A match of `/\S+|\s+/`: a non-empty run of a single whitespace class. */
  predicate IsToken(t: string) {
    t != [] && (AllSpace(t) || NoSpace(t))
  }

  function Concat(ts: seq<string>): string {
    if ts == [] then "" else ts[0] + Concat(ts[1..])
  }

  lemma {:induction false} ConcatAppend(a: seq<string>, b: seq<string>)
    ensures Concat(a + b) == Concat(a) + Concat(b)
  {
    if a == [] {
      assert a + b == b;
    } else {
      assert (a + b)[1..] == a[1..] + b;
      ConcatAppend(a[1..], b);
    }
  }

  /** `ts` cuts `s` into tokens: they give `s` back, neighbours alternate
      between the classes, and the first starts with the first character. */
  predicate Runs(s: string, ts: seq<string>) {
    && Concat(ts) == s
    && (forall k :: 0 <= k < |ts| ==> IsToken(ts[k]))
    && (forall k :: 0 <= k < |ts| - 1 ==> AllSpace(ts[k]) != AllSpace(ts[k + 1]))
    && (s != [] ==> ts != [] && ts[0] != [] && ts[0][0] == s[0])
  }

  /** A maximal run in front of the tokens of the rest is a tokenisation. */
  lemma RunsCons(s: string, n: nat, tail: seq<string>)
    requires 0 < n <= |s|
    requires forall i :: 0 <= i < n ==> IsSpace(s[i]) == IsSpace(s[0])
    requires n < |s| ==> IsSpace(s[n]) != IsSpace(s[0])
    requires Runs(s[n..], tail)
    ensures Runs(s, [s[..n]] + tail)
  {
    var head := s[..n];
    var ts := [head] + tail;
    assert ts[1..] == tail;
    assert head + s[n..] == s;
    assert Concat(ts) == head + Concat(tail);
    assert forall i :: 0 <= i < |head| ==> IsSpace(head[i]) == IsSpace(s[0]);
    assert IsToken(head);
    if tail != [] {
      assert tail[0][0] == s[n];
      assert AllSpace(head) != AllSpace(tail[0]);
    }
  }

  /** `s.match(/\S+|\s+/g) || []`: the maximal runs of whitespace and of
      non-whitespace of `s`, in order. Together with `Concat` it is a
      round trip, and neighbouring tokens alternate between the classes. */
  function Tokenize(s: string): (ts: seq<string>)
    ensures Concat(ts) == s
    ensures forall k :: 0 <= k < |ts| ==> IsToken(ts[k])
    ensures forall k :: 0 <= k < |ts| - 1 ==> AllSpace(ts[k]) != AllSpace(ts[k + 1])
    ensures s != [] ==> ts != [] && ts[0] != [] && ts[0][0] == s[0]
    decreases |s|
  {
    if s == [] then []
    else
      var n := Span(s, IsSpace(s[0]));
      var tail := Tokenize(s[n..]);
      RunsCons(s, n, tail);
      [s[..n]] + tail
  }

  /** The offset of token `i`: the total length of the tokens before it. */
  function Offset(ts: seq<string>, i: nat): nat
    requires i <= |ts|
  {
    |Concat(ts[..i])|
  }

  lemma OffsetNext(ts: seq<string>, i: nat)
    requires i < |ts|
    ensures Offset(ts, i + 1) == Offset(ts, i) + |ts[i]|
    ensures Concat(ts[..i + 1]) == Concat(ts[..i]) + ts[i]
  {
    assert ts[..i + 1] == ts[..i] + [ts[i]];
    ConcatAppend(ts[..i], [ts[i]]);
    assert Concat([ts[i]]) == ts[i] + Concat([]);
  }

  /** Offsets never decrease, and grow by at least the length of each token
      passed. */
  lemma {:induction false} OffsetGrows(ts: seq<string>, i: nat, j: nat)
    requires i < j <= |ts|
    ensures Offset(ts, j) >= Offset(ts, i) + |ts[i]|
    decreases j - i
  {
    OffsetNext(ts, i);
    if i + 1 < j {
      OffsetGrows(ts, i + 1, j);
    }
  }

  /** Token `i` sits in the joined text at its offset. */
  lemma TokenAtOffset(ts: seq<string>, i: nat)
    requires i < |ts|
    ensures Offset(ts, i) + |ts[i]| <= |Concat(ts)|
    ensures Concat(ts)[Offset(ts, i)..Offset(ts, i) + |ts[i]|] == ts[i]
  {
    assert ts == ts[..i + 1] + ts[i + 1..];
    ConcatAppend(ts[..i + 1], ts[i + 1..]);
    OffsetNext(ts, i);
  }

  // --------------------------------------------------------------- split

  /** `s.split(sep)` for a one-character separator: the pieces between the
      occurrences of `sep`, one more than there are separators. */
  function Split(s: string, sep: char): (parts: seq<string>)
    ensures parts != []
  {
    if s == [] then [""]
    else
      var rest := Split(s[1..], sep);
      if s[0] == sep then [""] + rest else [[s[0]] + rest[0]] + rest[1..]
  }

  /** There is one piece more than there are separators, and no piece
      contains the separator. */
  lemma {:induction false} SplitPieces(s: string, sep: char)
    ensures |Split(s, sep)| == multiset(s)[sep] + 1
    ensures forall k :: 0 <= k < |Split(s, sep)| ==> sep !in Split(s, sep)[k]
  {
    if s != [] {
      SplitPieces(s[1..], sep);
      assert s == [s[0]] + s[1..];
      var rest := Split(s[1..], sep);
      if s[0] != sep {
        var parts := Split(s, sep);
        forall k | 0 <= k < |parts| ensures sep !in parts[k] {
          if k > 0 {
            assert parts[k] == rest[k];
          }
        }
      }
    }
  }

  /** `parts.join(sep)`. */
  function Join(parts: seq<string>, sep: char): string
    requires parts != []
  {
    if |parts| == 1 then parts[0] else parts[0] + [sep] + Join(parts[1..], sep)
  }

  lemma {:induction false} JoinSplit(s: string, sep: char)
    ensures Join(Split(s, sep), sep) == s
  {
    if s != [] {
      var rest := Split(s[1..], sep);
      var parts := Split(s, sep);
      JoinSplit(s[1..], sep);
      assert s == [s[0]] + s[1..];
      if s[0] == sep {
        assert parts == [""] + rest;
        assert parts[1..] == rest;
        assert Join(parts, sep) == "" + [sep] + Join(rest, sep);
      } else if |rest| == 1 {
        assert parts == [[s[0]] + rest[0]];
        assert Join(rest, sep) == rest[0];
      } else {
        assert parts == [[s[0]] + rest[0]] + rest[1..];
        assert parts[1..] == rest[1..];
        assert Join(rest, sep) == rest[0] + [sep] + Join(rest[1..], sep);
        assert Join(parts, sep) == [s[0]] + rest[0] + [sep] + Join(rest[1..], sep);
      }
    }
  }

  /** `s.split(sep).pop()`: the last piece. */
  function LastPiece(s: string, sep: char): string {
    var parts := Split(s, sep);
    parts[|parts| - 1]
  }

  /** The last piece ends the string and holds no separator; it is shorter
      than the string exactly when there is more than one piece, and then a
      separator precedes it. */
  lemma {:induction false} LastPieceEnds(s: string, sep: char)
    ensures var last := LastPiece(s, sep);
      && |last| <= |s| && s[|s| - |last|..] == last && sep !in last
      && (|last| < |s| <==> |Split(s, sep)| > 1)
      && (|last| < |s| ==> s[|s| - |last| - 1] == sep)
  {
    if s != [] {
      var t := s[1..];
      LastPieceEnds(t, sep);
      var rest := Split(t, sep);
      var lr := rest[|rest| - 1];
      var last := LastPiece(s, sep);
      assert |lr| <= |t| && t[|t| - |lr|..] == lr;
      if s[0] == sep || |rest| > 1 {
        assert last == lr;
        assert s[|s| - |lr|..] == t[|t| - |lr|..];
        if |lr| < |t| {
          assert s[|s| - |lr| - 1] == t[|t| - |lr| - 1];
        }
      } else {
        assert Split(s, sep) == [[s[0]] + rest[0]];
        assert last == [s[0]] + lr;
        assert lr == t;
        assert s == [s[0]] + t;
      }
    }
  }

  /** What follows the last separator is the last piece. */
  lemma LastPieceAfter(stem: string, sep: char, tail: string)
    requires sep !in tail
    ensures LastPiece(stem + [sep] + tail, sep) == tail
  {
    var s := stem + [sep] + tail;
    LastPieceEnds(s, sep);
    var last := LastPiece(s, sep);
    assert s[|s| - |tail| - 1] == sep;
    assert |last| == |tail|;
    assert s[|s| - |tail|..] == tail;
  }

  // ----------------------------------------------------------- lowercase

  function LowerChar(c: char): char {
    if 'A' <= c <= 'Z' then (c as int + 32) as char else c
  }

  /** `toLowerCase` on the ASCII letters. */
  function ToLower(s: string): (r: string)
    ensures |r| == |s|
    ensures forall i :: 0 <= i < |r| ==> !('A' <= r[i] <= 'Z')
    ensures forall i :: 0 <= i < |s| && !('A' <= s[i] <= 'Z') ==> r[i] == s[i]
    ensures forall i :: 0 <= i < |s| && 'A' <= s[i] <= 'Z' ==> r[i] as int == s[i] as int + 32
  {
    seq(|s|, i requires 0 <= i < |s| => LowerChar(s[i]))
  }

  /** Lowering twice is lowering once. */
  lemma ToLowerIdempotent(s: string)
    ensures ToLower(ToLower(s)) == ToLower(s)
  {
    var once := ToLower(s);
    assert forall i :: 0 <= i < |once| ==> ToLower(once)[i] == once[i];
  }
}
