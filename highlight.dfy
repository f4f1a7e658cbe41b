/** `HighlightedText` of `src/app/regional/page.tsx`: the converted text is
    cut into the same runs the server uses, each run is rendered unchanged,
    and a run is marked when some change lies closer to the run's offset
    than the run is long. */
module Highlight {
  import opened Strings
  import opened Regional

  /** One rendered run: a `<mark>` with its title, or a `<span>`. */
  datatype Piece = Marked(word: string, title: string) | Plain(word: string)

  /** The test `changes.find` applies: `Math.abs(c.position - pos) < len`. */
  predicate Covers(c: Change, pos: int, len: nat) {
    (if c.position < pos then pos - c.position else c.position - pos) < len
  }

  /** `changes.find`: the index of the first change that covers the run, or
      `|changes|` when there is none. */
  function FindCovering(changes: seq<Change>, pos: int, len: nat): (i: nat)
    ensures i <= |changes|
    ensures forall j :: 0 <= j < i ==> !Covers(changes[j], pos, len)
    ensures i < |changes| ==> Covers(changes[i], pos, len)
  {
    if changes == [] then 0
    else if Covers(changes[0], pos, len) then 0
    else 1 + FindCovering(changes[1..], pos, len)
  }

  /** How the run `word` at offset `pos` is rendered. */
  function PieceAt(changes: seq<Change>, word: string, pos: int): Piece {
    var i := FindCovering(changes, pos, |word|);
    if i < |changes| then Marked(word, "Changed from: " + changes[i].original) else Plain(word)
  }

  /** The rendering of the whole text: one piece per run, in order. */
  function Render(text: string, changes: seq<Change>): seq<Piece> {
    var words := Tokenize(text);
    seq(|words|, k requires 0 <= k < |words| => PieceAt(changes, words[k], Offset(words, k)))
  }

  function Words(pieces: seq<Piece>): seq<string> {
    seq(|pieces|, k requires 0 <= k < |pieces| => pieces[k].word)
  }

  /** The component itself: `currentPos` runs through the offsets of the
      runs while they are rendered. */
  method HighlightedText(text: string, changes: seq<Change>) returns (pieces: seq<Piece>)
    ensures pieces == Render(text, changes)
  {
    var words := Tokenize(text);
    var currentPos := 0;
    pieces := [];
    for index := 0 to |words|
      invariant currentPos == Offset(words, index)
      invariant |pieces| == index
      invariant forall k :: 0 <= k < index ==> pieces[k] == PieceAt(changes, words[k], Offset(words, k))
    {
      var word := words[index];
      var pos := currentPos;
      OffsetNext(words, index);
      currentPos := currentPos + |word|;
      var change := FindCovering(changes, pos, |word|);
      if change < |changes| {
        pieces := pieces + [Marked(word, "Changed from: " + changes[change].original)];
      } else {
        pieces := pieces + [Plain(word)];
      }
    }
  }

  /** The words of the rendering are the runs of the text. */
  lemma RenderWords(text: string, changes: seq<Change>)
    ensures Words(Render(text, changes)) == Tokenize(text)
  {
  }

  /** Every run is rendered unchanged: the rendered words put together are
      the text. */
  lemma RenderKeepsText(text: string, changes: seq<Change>)
    ensures Concat(Words(Render(text, changes))) == text
  {
    RenderWords(text, changes);
  }

  /** The word of piece `k` sits in the text at the offset it is rendered
      for. */
  lemma RenderPosition(text: string, changes: seq<Change>, k: nat)
    requires k < |Tokenize(text)|
    ensures var pos := Offset(Tokenize(text), k);
      var word := Render(text, changes)[k].word;
      pos + |word| <= |text| && text[pos..pos + |word|] == word
  {
    TokenAtOffset(Tokenize(text), k);
  }

  /** A run is marked exactly when some change covers it, and its title then
      names the original of the first such change. */
  lemma RenderMarks(text: string, changes: seq<Change>, k: nat)
    requires k < |Tokenize(text)|
    ensures var words := Tokenize(text);
      var piece := Render(text, changes)[k];
      var pos := Offset(words, k);
      && (piece.Marked? <==> exists j :: 0 <= j < |changes| && Covers(changes[j], pos, |words[k]|))
      && (piece.Marked? ==>
            exists j :: (0 <= j < |changes| && Covers(changes[j], pos, |words[k]|)
              && (forall i :: 0 <= i < j ==> !Covers(changes[i], pos, |words[k]|))
              && piece.title == "Changed from: " + changes[j].original))
  {
    var words := Tokenize(text);
    var pos := Offset(words, k);
    var i := FindCovering(changes, pos, |words[k]|);
    if i == |changes| {
      assert forall j :: 0 <= j < |changes| ==> !Covers(changes[j], pos, |words[k]|);
    }
  }

  /** A change whose position is a run's own offset always marks that run. */
  lemma ChangeAtRunMarks(text: string, changes: seq<Change>, k: nat, j: nat)
    requires k < |Tokenize(text)| && j < |changes|
    requires changes[j].position == Offset(Tokenize(text), k)
    ensures Render(text, changes)[k].Marked?
  {
    var words := Tokenize(text);
    assert IsToken(words[k]);
    assert Covers(changes[j], Offset(words, k), |words[k]|);
    RenderMarks(text, changes, k);
  }

  /** Without changes nothing is marked. */
  lemma NoChangesNoMarks(text: string)
    ensures forall k :: 0 <= k < |Render(text, [])| ==> Render(text, [])[k].Plain?
  {
  }

  lemma RunsOfBcd()
    ensures Tokenize("bcd") == ["bcd"]
  {
    var t := "bcd";
    assert Span(t, false) == 3 by {
      assert !IsSpace(t[0]) && !IsSpace(t[1]) && !IsSpace(t[2]);
    }
    assert t[..3] == t && t[3..] == [];
  }

  lemma RunsOfSpaceBcd()
    ensures Tokenize(" bcd") == [" ", "bcd"]
  {
    var t := " bcd";
    assert Span(t, true) == 1 by {
      assert IsSpace(t[0]) && !IsSpace(t[1]);
    }
    assert t[..1] == " " && t[1..] == "bcd";
    RunsOfBcd();
  }

  /** The runs of "a bcd". */
  lemma ExampleRuns()
    ensures Tokenize("a bcd") == ["a", " ", "bcd"]
  {
    var t := "a bcd";
    assert Span(t, false) == 1 by {
      assert !IsSpace(t[0]) && IsSpace(t[1]);
    }
    assert t[..1] == "a" && t[1..] == " bcd";
    RunsOfSpaceBcd();
  }

  /** A change also marks a later run that is longer than its distance to
      the change: with "a bcd" and a change at offset 0, both "a" and "bcd"
      are marked, with the same title, and the space between them is not. */
  lemma LongerNeighbourMarked()
    ensures Render("a bcd", [Change("A", "a", 0)])
      == [Marked("a", "Changed from: A"), Plain(" "), Marked("bcd", "Changed from: A")]
  {
    var changes := [Change("A", "a", 0)];
    var words := Tokenize("a bcd");
    ExampleRuns();
    OffsetNext(words, 0);
    OffsetNext(words, 1);
    assert Offset(words, 0) == 0;
    var pieces := Render("a bcd", changes);
    assert pieces[0] == Marked("a", "Changed from: A");
    assert pieces[1] == Plain(" ");
    assert pieces[2] == Marked("bcd", "Changed from: A");
  }
}
