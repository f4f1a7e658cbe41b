/** `src/app/api/regional/route.ts`: American-to-British conversion of a copy
    text by a workflow run, and the positional word diff between the copy
    and the converted text. */
module Regional {
  import opened Wrappers
  import opened Strings
  import opened Engine

  // ------------------------------------------------------ positional diff

  /** One substituted word: its trimmed original and converted forms and the
      character offset of the original word in the original text. */
  datatype Change = Change(original: string, converted: string, position: int)

  /** The test `findChanges` applies to the tokens at one index: both trimmed
      tokens are non-empty and they differ. */
  predicate Differs(originalToken: string, convertedToken: string) {
    var o, c := Trim(originalToken), Trim(convertedToken);
    c != "" && o != c && o != "" && c != ""
  }

  /** The entry recorded for index `i`. */
  function Entry(ow: seq<string>, cw: seq<string>, i: nat): Change
    requires i < |ow| && i < |cw|
  {
    Change(Trim(ow[i]), Trim(cw[i]), Offset(ow, i))
  }

  /** What `findChanges` computes from the two token lists: for each index of
      the original tokens, in order, an entry when the converted list has a
      token there and the two differ. */
  function Diff(ow: seq<string>, cw: seq<string>): seq<Change>
    decreases |ow|
  {
    if ow == [] then []
    else
      var i := |ow| - 1;
      Diff(ow[..i], cw) + EntriesAt(ow, cw, i)
  }

  /** The entries `Diff` adds for index `i`. */
  function EntriesAt(ow: seq<string>, cw: seq<string>, i: nat): seq<Change>
    requires i < |ow|
  {
    if i < |cw| && Differs(ow[i], cw[i]) then [Entry(ow, cw, i)] else []
  }

  /** One more original token adds the entries of its index. */
  lemma DiffSnoc(ow: seq<string>, cw: seq<string>, i: nat)
    requires i < |ow|
    ensures Diff(ow[..i + 1], cw) == Diff(ow[..i], cw) + EntriesAt(ow, cw, i)
  {
    assert ow[..i + 1][..i] == ow[..i];
  }

  /** `findChanges(originalText, convertedText)`. */
  method FindChanges(originalText: string, convertedText: string) returns (changes: seq<Change>)
    ensures changes == Diff(Tokenize(originalText), Tokenize(convertedText))
  {
    var originalWords := Tokenize(originalText);
    var convertedWords := Tokenize(convertedText);
    changes := [];
    var position := 0;
    for i := 0 to |originalWords|
      invariant changes == Diff(originalWords[..i], convertedWords)
      invariant position == Offset(originalWords, i)
    {
      var originalWord := Trim(originalWords[i]);
      var convertedWord := if i < |convertedWords| then Trim(convertedWords[i]) else "";
      DiffSnoc(originalWords, convertedWords, i);
      if convertedWord != "" && originalWord != convertedWord && originalWord != "" && convertedWord != "" {
        changes := changes + [Change(originalWord, convertedWord, position)];
      }
      OffsetNext(originalWords, i);
      position := position + |originalWords[i]|;
    }
    assert originalWords[..|originalWords|] == originalWords;
  }

  /** Entries computed on a prefix of the original tokens are those of the
      whole list. */
  lemma EntryOfPrefix(ow: seq<string>, cw: seq<string>, n: nat, i: nat)
    requires i < n <= |ow| && i < |cw|
    ensures Entry(ow[..n], cw, i) == Entry(ow, cw, i)
  {
    assert ow[..n][..i] == ow[..i];
  }

  /** The indices at which `Diff` records an entry, in increasing order. */
  ghost function Hits(ow: seq<string>, cw: seq<string>): (idx: seq<nat>)
    ensures forall k :: 0 <= k < |idx| ==> idx[k] < |ow|
    decreases |ow|
  {
    if ow == [] then []
    else
      var n := |ow| - 1;
      Hits(ow[..n], cw) + (if n < |cw| && Differs(ow[n], cw[n]) then [n] else [])
  }

  /** The `k`-th entry of `Diff` is the entry of the `k`-th hit. */
  lemma {:induction false} HitEntries(ow: seq<string>, cw: seq<string>)
    ensures |Hits(ow, cw)| == |Diff(ow, cw)|
    ensures forall k :: 0 <= k < |Hits(ow, cw)| ==>
      Hits(ow, cw)[k] < |cw| && Differs(ow[Hits(ow, cw)[k]], cw[Hits(ow, cw)[k]])
    ensures forall k :: 0 <= k < |Hits(ow, cw)| ==> Diff(ow, cw)[k] == Entry(ow, cw, Hits(ow, cw)[k])
    decreases |ow|
  {
    if ow != [] {
      var n := |ow| - 1;
      var front := ow[..n];
      HitEntries(front, cw);
      var prev, d := Hits(front, cw), Diff(front, cw);
      assert Diff(ow, cw) == d + EntriesAt(ow, cw, n);
      forall k | 0 <= k < |prev|
        ensures Hits(ow, cw)[k] == prev[k]
        ensures prev[k] < |cw| && Differs(ow[prev[k]], cw[prev[k]]) && Diff(ow, cw)[k] == Entry(ow, cw, prev[k])
      {
        assert front[prev[k]] == ow[prev[k]];
        EntryOfPrefix(ow, cw, n, prev[k]);
      }
    }
  }

  /** Hits strictly increase. */
  lemma {:induction false} HitsIncrease(ow: seq<string>, cw: seq<string>)
    ensures forall j, k :: 0 <= j < k < |Hits(ow, cw)| ==> Hits(ow, cw)[j] < Hits(ow, cw)[k]
    decreases |ow|
  {
    if ow != [] {
      var n := |ow| - 1;
      HitsIncrease(ow[..n], cw);
    }
  }

  /** Every index where the tokens differ is a hit, and only those are. */
  lemma {:induction false} HitsComplete(ow: seq<string>, cw: seq<string>, i: nat)
    requires i < |ow|
    ensures i in Hits(ow, cw) <==> i < |cw| && Differs(ow[i], cw[i])
    decreases |ow|
  {
    var n := |ow| - 1;
    var front := ow[..n];
    var prev := Hits(front, cw);
    var last: seq<nat> := if n < |cw| && Differs(ow[n], cw[n]) then [n] else [];
    assert Hits(ow, cw) == prev + last;
    assert n !in prev;
    if i < n {
      HitsComplete(front, cw, i);
      assert front[i] == ow[i];
      assert i !in last;
    }
  }

  /** A strictly increasing list of indices below `m` has at most `m` entries. */
  lemma {:induction false} IncreasingBelow(idx: seq<nat>, m: nat)
    requires forall j, k :: 0 <= j < k < |idx| ==> idx[j] < idx[k]
    requires forall k :: 0 <= k < |idx| ==> idx[k] < m
    ensures |idx| <= m
  {
    if idx != [] {
      var last := |idx| - 1;
      IncreasingBelow(idx[..last], idx[last]);
    }
  }

  /** A token is whitespace, and trims to nothing, or has none, and is its
      own trim. */
  lemma TokenTrim(t: string)
    requires IsToken(t)
    ensures Trim(t) == if AllSpace(t) then "" else t
    ensures !AllSpace(t) ==> NoSpace(t)
  {
    if AllSpace(t) {
      TrimAllSpace(t);
    } else {
      TrimNoSpace(t);
    }
  }

  /** On tokens, `Differs` means: two different words, neither of them a
      whitespace run. */
  lemma TokensDiffer(o: string, c: string)
    requires IsToken(o) && IsToken(c)
    ensures Differs(o, c) <==> NoSpace(o) && NoSpace(c) && o != c
  {
    TokenTrim(o);
    TokenTrim(c);
  }

  /** `findChanges` records no more entries than either text has tokens. */
  lemma DiffBounds(originalText: string, convertedText: string)
    ensures var ow, cw := Tokenize(originalText), Tokenize(convertedText);
      |Diff(ow, cw)| <= |ow| && |Diff(ow, cw)| <= |cw|
  {
    var ow, cw := Tokenize(originalText), Tokenize(convertedText);
    HitEntries(ow, cw);
    HitsIncrease(ow, cw);
    IncreasingBelow(Hits(ow, cw), |ow|);
    IncreasingBelow(Hits(ow, cw), |cw|);
  }

  /** Every entry is a real substitution of one word by another, and the
      original word is found verbatim in the original text at the entry's
      position. Each entry is the entry of one index: the trimmed original
      and converted tokens at that index, at the original token's offset. */
  lemma DiffEntries(originalText: string, convertedText: string)
    ensures var d := Diff(Tokenize(originalText), Tokenize(convertedText));
      forall k :: 0 <= k < |d| ==> ChangeAt(originalText, d[k])
    ensures var ow, cw := Tokenize(originalText), Tokenize(convertedText);
      var d := Diff(ow, cw);
      forall k :: 0 <= k < |d| ==> EntryOfIndex(ow, cw, d[k])
  {
    var ow, cw := Tokenize(originalText), Tokenize(convertedText);
    var d := Diff(ow, cw);
    HitEntries(ow, cw);
    var idx := Hits(ow, cw);
    forall k | 0 <= k < |d|
      ensures ChangeAt(originalText, d[k])
    {
      HitEntry(originalText, ow, cw, idx[k]);
    }
    forall k | 0 <= k < |d|
      ensures EntryOfIndex(ow, cw, d[k])
    {
      var i := idx[k];
      assert 0 <= i < |ow| && i < |cw| && d[k] == Entry(ow, cw, i);
    }
  }

  /** The change is the entry of some index both token lists have. */
  predicate EntryOfIndex(ow: seq<string>, cw: seq<string>, c: Change) {
    exists i :: 0 <= i < |ow| && i < |cw| && c == Entry(ow, cw, i)
  }

  /** What `DiffEntries` says of one entry. */
  predicate ChangeAt(originalText: string, c: Change) {
    && c.original != "" && c.converted != "" && c.original != c.converted
    && NoSpace(c.original) && NoSpace(c.converted)
    && 0 <= c.position && c.position + |c.original| <= |originalText|
    && originalText[c.position..c.position + |c.original|] == c.original
  }

  /** The entry of a differing index of two token lists. */
  lemma HitEntry(originalText: string, ow: seq<string>, cw: seq<string>, i: nat)
    requires Concat(ow) == originalText
    requires i < |ow| && i < |cw| && IsToken(ow[i]) && IsToken(cw[i]) && Differs(ow[i], cw[i])
    ensures ChangeAt(originalText, Entry(ow, cw, i))
  {
    var o, c := ow[i], cw[i];
    TokenTrim(o);
    TokenTrim(c);
    TokenAtOffset(ow, i);
  }

  /** The positions of the entries strictly increase. */
  lemma DiffIncreasing(originalText: string, convertedText: string)
    ensures var d := Diff(Tokenize(originalText), Tokenize(convertedText));
      forall j, k :: 0 <= j < k < |d| ==> d[j].position < d[k].position
  {
    var ow, cw := Tokenize(originalText), Tokenize(convertedText);
    var d := Diff(ow, cw);
    HitEntries(ow, cw);
    HitsIncrease(ow, cw);
    var idx := Hits(ow, cw);
    forall j, k | 0 <= j < k < |d| ensures d[j].position < d[k].position {
      OffsetGrows(ow, idx[j], idx[k]);
    }
  }

  /** An original token at index `i` gets an entry exactly when the
      converted text has a differing word at the same index. */
  lemma DiffComplete(originalText: string, convertedText: string, i: nat)
    requires i < |Tokenize(originalText)|
    ensures var ow, cw := Tokenize(originalText), Tokenize(convertedText);
      var d := Diff(ow, cw);
      (exists k :: 0 <= k < |d| && d[k].position == Offset(ow, i)) <==> i < |cw| && Differs(ow[i], cw[i])
  {
    var ow, cw := Tokenize(originalText), Tokenize(convertedText);
    var d := Diff(ow, cw);
    HitEntries(ow, cw);
    HitsComplete(ow, cw, i);
    var idx := Hits(ow, cw);
    if i < |cw| && Differs(ow[i], cw[i]) {
      var k :| 0 <= k < |idx| && idx[k] == i;
      assert d[k].position == Offset(ow, i);
    }
    forall k | 0 <= k < |d| && d[k].position == Offset(ow, i) ensures idx[k] == i {
      if idx[k] < i {
        OffsetGrows(ow, idx[k], i);
      } else if i < idx[k] {
        OffsetGrows(ow, i, idx[k]);
      }
    }
    if exists k :: 0 <= k < |d| && d[k].position == Offset(ow, i) {
      var k :| 0 <= k < |d| && d[k].position == Offset(ow, i);
      assert idx[k] in idx;
    }
  }

  /** Comparing a text with itself, or with a text that starts with the
      same tokens, yields no entries. */
  lemma {:induction false} DiffOfSame(ow: seq<string>, cw: seq<string>)
    requires |ow| <= |cw| && ow == cw[..|ow|]
    ensures Diff(ow, cw) == []
    decreases |ow|
  {
    if ow != [] {
      var i := |ow| - 1;
      assert ow[..i] == cw[..i];
      assert ow[i] == cw[i];
      DiffOfSame(ow[..i], cw);
    }
  }

  /** When the two token lists agree everywhere but at index `i`, where the
      tokens differ, there is exactly one entry: the one for `i`. */
  lemma {:induction false} DiffOneChange(ow: seq<string>, cw: seq<string>, i: nat)
    requires i < |ow| <= |cw|
    requires forall j :: 0 <= j < |ow| && j != i ==> ow[j] == cw[j]
    requires Differs(ow[i], cw[i])
    ensures Diff(ow, cw) == [Entry(ow, cw, i)]
    decreases |ow|
  {
    var n := |ow| - 1;
    var front := ow[..n];
    if n == i {
      assert front == cw[..n];
      DiffOfSame(front, cw);
    } else {
      DiffOneChange(front, cw, i);
      EntryOfPrefix(ow, cw, n, i);
      assert ow[n] == cw[n];
    }
  }

  /** A maximal run at the front of `s` is its first token. */
  lemma TokenizeRun(s: string, n: nat)
    requires 0 < n <= |s|
    requires forall k :: 0 <= k < n ==> IsSpace(s[k]) == IsSpace(s[0])
    requires n < |s| ==> IsSpace(s[n]) != IsSpace(s[0])
    ensures Tokenize(s) == [s[..n]] + Tokenize(s[n..])
  {
  }

  /** A word before text that starts with whitespace is the first run. */
  lemma TokenizeWordFront(w: string, t: string)
    requires w != [] && NoSpace(w) && t != [] && IsSpace(t[0])
    ensures Tokenize(w + t) == [w] + Tokenize(t)
  {
    var s := w + t;
    assert forall k :: 0 <= k < |w| ==> s[k] == w[k];
    assert s[|w|] == t[0];
    assert s[..|w|] == w && s[|w|..] == t;
    TokenizeRun(s, |w|);
  }

  /** One space before a visible character is a run of its own. */
  lemma TokenizeSpaceFront(rest: string)
    requires rest != [] && !IsSpace(rest[0])
    ensures Tokenize(" " + rest) == [" "] + Tokenize(rest)
  {
    var t := " " + rest;
    assert t[0] == ' ' && t[1] == rest[0];
    assert t[..1] == " " && t[1..] == rest;
    TokenizeRun(t, 1);
  }

  /** The runs of a word followed by one space and more text. */
  lemma TokenizeWordSpace(w: string, rest: string)
    requires w != [] && NoSpace(w) && rest != [] && !IsSpace(rest[0])
    ensures Tokenize(w + " " + rest) == [w, " "] + Tokenize(rest)
  {
    var t := " " + rest;
    assert w + " " + rest == w + t;
    assert t[0] == ' ';
    TokenizeWordFront(w, t);
    TokenizeSpaceFront(rest);
    PairFront(w, " ", Tokenize(rest));
  }

  lemma PairFront(a: string, b: string, xs: seq<string>)
    ensures [a] + ([b] + xs) == [a, b] + xs
  {
    assert [a] + ([b] + xs) == [a] + [b] + xs;
  }

  /** A lone word is its own single run. */
  lemma TokenizeWord(w: string)
    requires w != [] && NoSpace(w)
    ensures Tokenize(w) == [w]
  {
    TokenizeRun(w, |w|);
    assert w[..|w|] == w && w[|w|..] == [];
  }

  /** The runs of "is red". */
  lemma RunsOfIsRed()
    ensures Tokenize("is red") == ["is", " ", "red"]
  {
    var verb, red := "is", "red";
    assert NoSpace(verb) && NoSpace(red);
    TokenizeWord(red);
    TokenizeWordSpace(verb, red);
    IsRedText();
  }

  lemma IsRedText()
    ensures "is" + " " + "red" == "is red"
  {
  }

  /** The runs of a word followed by " is red". */
  lemma RunsOfWordIsRed(word: string)
    requires word != [] && NoSpace(word)
    ensures Tokenize(word + " " + "is red") == [word, " ", "is", " ", "red"]
  {
    var rest := "is red";
    assert rest != [] && rest[0] == 'i';
    RunsOfIsRed();
    TokenizeWordSpace(word, rest);
  }

  /** The runs of "The", a word and "is red", with single spaces between. */
  lemma ExampleText(word: string, text: string)
    requires text == "The" + " " + (word + " " + "is red")
    requires word != [] && NoSpace(word)
    ensures Tokenize(text) == ["The", " ", word, " ", "is", " ", "red"]
  {
    var the := "The";
    assert NoSpace(the);
    RunsOfWordIsRed(word);
    var rest := word + " " + "is red";
    assert rest[0] == word[0];
    TokenizeWordSpace(the, rest);
    ExampleShape(word);
  }

  // The literal equalities below are lemmas of their own: in the context of
  // the lemmas about runs, where `Tokenize` is unfolded, they are expensive.

  lemma ExampleShape(word: string)
    ensures ["The", " "] + [word, " ", "is", " ", "red"] == ["The", " ", word, " ", "is", " ", "red"]
  {
  }

  lemma OriginalText()
    ensures "The" + " " + ("color" + " " + "is red") == "The color is red"
  {
  }

  lemma ColourText()
    ensures "The" + " " + ("colour" + " " + "is red") == "The colour is red"
  {
  }

  /** The two word lists differ only in the third token, at offset 4. */
  lemma ColourDiff()
    ensures var ow := ["The", " ", "color", " ", "is", " ", "red"];
      var cw := ["The", " ", "colour", " ", "is", " ", "red"];
      Diff(ow, cw) == [Change("color", "colour", 4)]
  {
    var color, colour := "color", "colour";
    var ow := ["The", " ", color, " ", "is", " ", "red"];
    var cw := ["The", " ", colour, " ", "is", " ", "red"];
    assert NoSpace(color) && NoSpace(colour);
    TrimNoSpace(color);
    TrimNoSpace(colour);
    DiffOneChange(ow, cw, 2);
    OffsetNext(ow, 0);
    OffsetNext(ow, 1);
    assert Offset(ow, 0) == 0;
  }

  /** `findChanges("The color is red", "The colour is red")` records the one
      substituted word at its offset. */
  lemma ColourExample()
    ensures Diff(Tokenize("The color is red"), Tokenize("The colour is red")) == [Change("color", "colour", 4)]
  {
    var color, colour := "color", "colour";
    assert NoSpace(color) && NoSpace(colour);
    OriginalText();
    ColourText();
    ExampleText(color, "The color is red");
    ExampleText(colour, "The colour is red");
    ColourDiff();
  }

  // ------------------------------------------- converted-text normalisation

  /** A JSON value as `JSON.parse` produces it, or `undefined` for a missing
      member. A number carries its `String(n)` text; an object or array
      carries its `en` member and its `JSON.stringify` text. */
  datatype Value =
    | Undefined
    | Null
    | Bool(b: bool)
    | Number(text: string)
    | Str(s: string)
    | Object(en: Value, json: string)

  /** JavaScript truthiness. The numbers 0, -0 and NaN print as "0" and "NaN". */
  predicate Truthy(v: Value) {
    match v
    case Undefined => false
    case Null => false
    case Bool(b) => b
    case Number(text) => text != "0" && text != "NaN"
    case Str(s) => s != ""
    case Object(_, _) => true
  }

  /** The text the handler settles on for `regionalized_copy`: a string as it
      is; for an object its non-empty string `en`, otherwise its JSON text;
      for other values `String(v || "")`, which is "" for null and undefined. */
  function ConvertedText(v: Value): string {
    match v
    case Str(s) => s
    case Object(en, json) => if en.Str? && en.s != "" then en.s else json
    case Bool(b) => if b then "true" else ""
    case Number(text) => if Truthy(v) then text else ""
    case Undefined => ""
    case Null => ""
  }

  /** The reassignments of `convertedText` in `waitForResult`. */
  method NormaliseConvertedText(regionalized: Value) returns (convertedText: string)
    ensures convertedText == ConvertedText(regionalized)
    ensures regionalized.Str? ==> convertedText == regionalized.s
    ensures regionalized.Object? && regionalized.en.Str? && regionalized.en.s != "" ==> convertedText == regionalized.en.s
    ensures regionalized.Object? && !(regionalized.en.Str? && regionalized.en.s != "") ==> convertedText == regionalized.json
    ensures regionalized.Null? || regionalized.Undefined? ==> convertedText == ""
  {
    var value := regionalized;
    if value.Object? {
      if Truthy(value.en) && value.en.Str? {
        value := value.en;
      } else {
        value := Str(value.json);
      }
    }
    if !value.Str? {
      var operand := if Truthy(value) then value else Str("");
      value := Str(match operand
                   case Bool(b) => if b then "true" else "false"
                   case Number(text) => text
                   case Str(s) => s
                   case _ => "");
    }
    convertedText := value.s;
  }

  // --------------------------------------------------------------- polling

  const Workflow := "WCFG-5eed4feb-7d2e-4d40-958d-5ee62c759311"
  const MaxAttempts: nat := 20

  /** What the handler reads from a finished run: `data.input.copy` when it
      is a string (`None` otherwise, and `findChanges` would throw), and the
      `regionalized_copy` member of the parsed `format_output` (`None` when
      `format_output` is missing or does not parse). */
  datatype RegionalOutput = RegionalOutput(copy: Option<string>, regionalized: Option<Value>)

  datatype RegionalResponse = RegionalResponse(convertedText: string, changes: seq<Change>)

  /** The reply the loop returns on: a 2xx JSON report with `status`
      "success", run status "COMPLETE", and an output the handler can read. */
  predicate Completed(reply: Reply<RegionalOutput>) {
    && reply.Http? && IsOk(reply.status) && reply.body.Parsed?
    && reply.body.status == "success" && reply.body.data.Some?
    && reply.body.data.value.status == "COMPLETE"
    && reply.body.data.value.output.copy.Some? && reply.body.data.value.output.regionalized.Some?
  }

  /** The response built from a completed reply: the normalised converted
      text, and the changes from the run's input copy to it. */
  function Response(reply: Reply<RegionalOutput>): RegionalResponse
    requires Completed(reply)
  {
    var output := reply.body.data.value.output;
    var convertedText := ConvertedText(output.regionalized.value);
    RegionalResponse(convertedText, Diff(Tokenize(output.copy.value), Tokenize(convertedText)))
  }

  /** Everything inside the `try` of `waitForResult` either returns or ends
      in the `catch`: a non-2xx status, an unparsable body, a missing member
      and the explicit "Workflow processing failed" all lead to a retry. */
  function Classify(reply: Reply<RegionalOutput>): Step<RegionalResponse> {
    if Completed(reply) then Done(Response(reply)) else Retry
  }

  /** The outcome of polling a regional run: at most 20 status requests; the
      response of the first completed reply, or a timeout when there is none
      among the first 20. No reply is fatal. */
  lemma WaitOutcome(script: seq<Reply<RegionalOutput>>)
    requires MaxAttempts <= |script|
    ensures var (result, fetches) := Poll(script, Classify, MaxAttempts);
      && 1 <= fetches <= MaxAttempts
      && (forall j :: 0 <= j < fetches - 1 ==> !Completed(script[j]))
      && (result.Success? <==> Completed(script[fetches - 1]))
      && (result.Success? ==> result.value == Response(script[fetches - 1]))
      && (result.Failure? ==> result.error == Timeout && fetches == MaxAttempts)
  {
    PollCharacterised(script, Classify, MaxAttempts);
    var (result, fetches) := Poll(script, Classify, MaxAttempts);
    var last := script[fetches - 1];
    assert forall j :: 0 <= j < fetches - 1 ==> Classify(script[j]).Retry?;
    if Completed(last) {
      assert Classify(last) == Done(Response(last));
    } else {
      assert Classify(last).Retry?;
    }
  }

  /** `waitForResult`, which polls as `WaitOutcome` describes. */
  method WaitForResult(script: seq<Reply<RegionalOutput>>) returns (result: Result<RegionalResponse, Failure>, fetches: nat)
    requires MaxAttempts <= |script|
    ensures (result, fetches) == Poll(script, Classify, MaxAttempts)
  {
    var attempts := 0;
    while attempts < MaxAttempts
      invariant attempts <= MaxAttempts
      invariant PollFrom(script, Classify, MaxAttempts, attempts) == Poll(script, Classify, MaxAttempts)
    {
      var reply := script[attempts];
      // try
      if reply.Http? && IsOk(reply.status) && reply.body.Parsed? {
        var data := reply.body;
        if data.status == "success" && data.data.Some? && data.data.value.status == "COMPLETE" {
          var output := data.data.value.output;
          if output.regionalized.Some? && output.copy.Some? {
            var convertedText := NormaliseConvertedText(output.regionalized.value);
            var changes := FindChanges(output.copy.value, convertedText);
            return Success(RegionalResponse(convertedText, changes)), attempts + 1;
          }
        } else if data.data.Some? && data.data.value.error {
          // "Workflow processing failed" is thrown, and caught below
        }
      }
      // catch: the attempt is logged and the loop goes on
      attempts := attempts + 1;
    }
    return Failure(Timeout), attempts;
  }

  // ------------------------------------------------------------------ POST

  function StartVariables(text: string): map<string, string> {
    map["copy" := text, "start_region" := "American English", "end_region" := "British English"]
  }

  /** `POST`: fails before any request without an API key; otherwise starts
      one run with the text and polls that run. */
  method Post(text: string, apiKey: string, start: StartReply, script: seq<Reply<RegionalOutput>>)
    returns (result: Result<RegionalResponse, Failure>, calls: seq<Call>)
    requires MaxAttempts <= |script|
    ensures apiKey == "" ==> result == Failure(ApiKeyNotConfigured) && calls == []
    ensures apiKey != "" && StartedRun(start).Failure? ==>
      result == Failure(StartedRun(start).error) && calls == [StartRun(Workflow, StartVariables(text))]
    ensures apiKey != "" && StartedRun(start).Success? ==>
      var (r, n) := Poll(script, Classify, MaxAttempts);
      && result == r
      && calls == [StartRun(Workflow, StartVariables(text))] + Fetches(Workflow, IdText(StartedRun(start).value), n)
  {
    if apiKey == "" {
      return Failure(ApiKeyNotConfigured), [];
    }
    calls := [StartRun(Workflow, StartVariables(text))];
    var started := StartedRun(start);
    if started.Failure? {
      return Failure(started.error), calls;
    }
    var fetches;
    result, fetches := WaitForResult(script);
    calls := calls + Fetches(Workflow, IdText(started.value), fetches);
  }
}
