/** `src/app/api/ask/route.ts`: a question answered by a workflow run, polled
    for and streamed back word by word. */
module Ask {
  import opened Wrappers
  import opened Strings
  import opened Engine

  const Workflow := "WCFG-5475d3a8-e5d7-4c96-92be-cb62bc2777af"
  const MaxAttempts: nat := 10

  // --------------------------------------------------------------- polling

  /** `data.output` of a question run: its `generate_text`. */
  datatype AskOutput = AskOutput(generateText: TextMember)

  /** The reply the loop returns on: a 2xx JSON report with `status`
      "success", run status "COMPLETE" and a truthy answer, whatever its
      type. */
  predicate Answered(reply: Reply<AskOutput>) {
    && reply.Http? && IsOk(reply.status) && reply.body.Parsed?
    && reply.body.status == "success" && reply.body.data.Some?
    && reply.body.data.value.status == "COMPLETE"
    && IsTruthy(reply.body.data.value.output.generateText)
  }

  function Answer(reply: Reply<AskOutput>): TextMember
    requires Answered(reply)
  {
    reply.body.data.value.output.generateText
  }

  /** Everything inside the `try` of `waitForResult` either returns or ends
      in the `catch`: a non-2xx status, an unparsable body, a missing member,
      a falsy answer and the explicit "Workflow processing failed" all lead
      to a retry. */
  function Classify(reply: Reply<AskOutput>): Step<TextMember> {
    if Answered(reply) then Done(Answer(reply)) else Retry
  }

  /** The loop of `waitForResult`, which the question handlers share; they
      differ only in how many attempts they allow. */
  method WaitForAnswer(script: seq<Reply<AskOutput>>, maxAttempts: nat) returns (result: Result<TextMember, Failure>, fetches: nat)
    requires maxAttempts <= |script|
    ensures (result, fetches) == Poll(script, Classify, maxAttempts)
  {
    var attempts := 0;
    while attempts < maxAttempts
      invariant attempts <= maxAttempts
      invariant PollFrom(script, Classify, maxAttempts, attempts) == Poll(script, Classify, maxAttempts)
    {
      var response := script[attempts];
      // try
      if response.Http? && IsOk(response.status) && response.body.Parsed? {
        var data := response.body;
        if data.status == "success" && data.data.Some? && data.data.value.status == "COMPLETE" {
          var answer := data.data.value.output.generateText;
          if IsTruthy(answer) {
            return Success(answer), attempts + 1;
          }
          // "No answer in response" is thrown, and caught below
        } else if data.data.Some? && data.data.value.error {
          // "Workflow processing failed" is thrown, and caught below
        }
      }
      // catch: the attempt is logged and the loop goes on
      attempts := attempts + 1;
    }
    return Failure(Timeout), attempts;
  }

  /** `waitForResult` of this handler: at most 10 attempts. */
  method WaitForResult(script: seq<Reply<AskOutput>>) returns (result: Result<TextMember, Failure>, fetches: nat)
    requires MaxAttempts <= |script|
    ensures (result, fetches) == Poll(script, Classify, MaxAttempts)
  {
    result, fetches := WaitForAnswer(script, MaxAttempts);
  }

  /** The outcome of polling for an answer: at most `maxAttempts` status
      requests, none of them answered but possibly the last; the answer of
      that last one when it is answered, and a timeout after all attempts
      otherwise. No reply is fatal, and the answer is always truthy. */
  lemma AnswerOutcome(script: seq<Reply<AskOutput>>, maxAttempts: nat)
    requires maxAttempts <= |script|
    ensures var (result, fetches) := Poll(script, Classify, maxAttempts);
      && fetches <= maxAttempts
      && (forall j :: 0 <= j < fetches - 1 ==> !Answered(script[j]))
      && (result.Success? <==> fetches > 0 && Answered(script[fetches - 1]))
      && (result.Success? ==> result.value == Answer(script[fetches - 1]) && IsTruthy(result.value))
      && (result.Failure? ==> result.error == Timeout && fetches == maxAttempts)
  {
    PollCharacterised(script, Classify, maxAttempts);
    var (result, fetches) := Poll(script, Classify, maxAttempts);
    assert forall j :: 0 <= j < fetches - 1 ==> Classify(script[j]).Retry?;
    if fetches > 0 {
      var last := script[fetches - 1];
      if Answered(last) {
        assert Classify(last) == Done(Answer(last));
      } else {
        assert Classify(last).Retry?;
      }
    }
  }

  // ------------------------------------------------------------ streaming

  /** The chunks `streamResponse(text)` yields, in order: every piece of
      `text.split(" ")` followed by one space. */
  function Chunks(text: string): seq<string> {
    var parts := Split(text, ' ');
    seq(|parts|, k requires 0 <= k < |parts| => parts[k] + " ")
  }

  /** `streamResponse`: throws on a falsy text before yielding anything, and
      on a truthy one that is not a string at its `split`; otherwise yields
      the chunks. */
  method StreamResponse(text: TextMember) returns (result: Result<seq<string>, Failure>)
    ensures !IsTruthy(text) ==> result == Failure(NoTextToStream)
    ensures IsTruthy(text) && text.NotText? ==> result == Failure(MalformedPayload)
    ensures IsTruthy(text) && text.Text? ==> result == Success(Chunks(text.text))
  {
    if !IsTruthy(text) {
      return Failure(NoTextToStream);
    }
    if !text.Text? {
      // `split` is not a function of the value
      return Failure(MalformedPayload);
    }
    var parts := Split(text.text, ' ');
    var chunks := [];
    for i := 0 to |parts|
      invariant |chunks| == i
      invariant forall k :: 0 <= k < i ==> chunks[k] == parts[k] + " "
    {
      chunks := chunks + [parts[i] + " "];
    }
    assert chunks == Chunks(text.text);
    return Success(chunks);
  }

  /** Pieces each followed by a space, joined: the pieces joined by spaces,
      and one more space. */
  lemma {:induction false} SpacedJoin(parts: seq<string>)
    requires parts != []
    ensures Concat(seq(|parts|, k requires 0 <= k < |parts| => parts[k] + " ")) == Join(parts, ' ') + " "
    decreases |parts|
  {
    var spaced := seq(|parts|, k requires 0 <= k < |parts| => parts[k] + " ");
    if |parts| == 1 {
      assert spaced == [parts[0] + " "];
      assert Concat(spaced) == parts[0] + " " + Concat([]);
    } else {
      var rest := parts[1..];
      SpacedJoin(rest);
      assert spaced[1..] == seq(|rest|, k requires 0 <= k < |rest| => rest[k] + " ");
      assert Concat(spaced) == parts[0] + " " + Concat(spaced[1..]);
    }
  }

  /** The chunks together give back the text with one trailing space. */
  lemma ChunksJoin(text: string)
    ensures Concat(Chunks(text)) == text + " "
  {
    SpacedJoin(Split(text, ' '));
    JoinSplit(text, ' ');
  }

  /** There is one chunk more than the text has spaces, and no chunk has a
      space but its last character. */
  lemma ChunksCount(text: string)
    ensures |Chunks(text)| == multiset(text)[' '] + 1
    ensures forall k :: 0 <= k < |Chunks(text)| ==>
      var c := Chunks(text)[k]; c != [] && c[|c| - 1] == ' ' && ' ' !in c[..|c| - 1]
  {
    SplitPieces(text, ' ');
    var parts := Split(text, ' ');
    forall k | 0 <= k < |parts|
      ensures var c := parts[k] + " "; c != [] && c[|c| - 1] == ' ' && ' ' !in c[..|c| - 1]
    {
      assert (parts[k] + " ")[..|parts[k]|] == parts[k];
    }
  }

  /** "a b c" streams as "a ", "b ", "c ". */
  lemma ChunksExample()
    ensures Chunks("a b c") == ["a ", "b ", "c "]
  {
    var c, bc, abc := "c", " c", "b c";
    assert Split(c, ' ') == ["c"] by {
      assert c[1..] == [];
      assert [c[0]] + [] == "c";
    }
    assert Split(bc, ' ') == ["", "c"] by {
      assert bc[1..] == c;
    }
    assert Split(abc, ' ') == ["b", "c"] by {
      assert abc[1..] == bc;
      assert [abc[0]] + "" == "b";
    }
    var babc, text := " b c", "a b c";
    assert Split(babc, ' ') == ["", "b", "c"] by {
      assert babc[1..] == abc;
    }
    assert Split(text, ' ') == ["a", "b", "c"] by {
      assert text[1..] == babc;
      assert [text[0]] + "" == "a";
    }
    var chunks := Chunks(text);
    assert |chunks| == 3;
    assert chunks[0] == "a " && chunks[1] == "b " && chunks[2] == "c ";
  }

  // ------------------------------------------------------------------ POST

  /** `POST`: fails before any request without an API key; otherwise starts
      one run with the question, polls that run and streams the answer. */
  method Post(message: string, apiKey: string, start: StartReply, script: seq<Reply<AskOutput>>)
    returns (result: Result<seq<string>, Failure>, calls: seq<Call>)
    requires MaxAttempts <= |script|
    ensures apiKey == "" ==> result == Failure(ApiKeyNotConfigured) && calls == []
    ensures apiKey != "" && StartedRun(start).Failure? ==>
      result == Failure(StartedRun(start).error) && calls == [StartRun(Workflow, map["question" := message])]
    ensures apiKey != "" && StartedRun(start).Success? ==>
      var (r, n) := Poll(script, Classify, MaxAttempts);
      && calls == [StartRun(Workflow, map["question" := message])] + Fetches(Workflow, IdText(StartedRun(start).value), n)
      && (r.Success? && !IsTruthy(r.value) ==> result == Failure(NoAnswer))
      && (r.Success? && r.value.Text? && IsTruthy(r.value) ==> result == Success(Chunks(r.value.text)))
      && (r.Success? && r.value.NotText? && IsTruthy(r.value) ==> result == Success([]))
      && (r.Failure? ==> result == Failure(r.error))
  {
    if apiKey == "" {
      return Failure(ApiKeyNotConfigured), [];
    }
    calls := [StartRun(Workflow, map["question" := message])];
    var started := StartedRun(start);
    if started.Failure? {
      return Failure(started.error), calls;
    }
    var answer, fetches := WaitForResult(script);
    calls := calls + Fetches(Workflow, IdText(started.value), fetches);
    if answer.Failure? {
      return Failure(answer.error), calls;
    }
    if !IsTruthy(answer.value) {
      return Failure(NoAnswer), calls;
    }
    // the detached writer: stream errors are swallowed and the writer closed
    var streamed := StreamResponse(answer.value);
    result := if streamed.Success? then streamed else Success([]);
  }

  /** The answer `POST` streams is always truthy, so its "No answer
      received" check never fires. */
  lemma PostNeverEmpty(script: seq<Reply<AskOutput>>)
    requires MaxAttempts <= |script|
    ensures var (r, _) := Poll(script, Classify, MaxAttempts);
      r.Success? ==> IsTruthy(r.value)
  {
    AnswerOutcome(script, MaxAttempts);
  }

  /** A finished run whose answer is truthy but not a string ends the poll:
      `waitForResult` returns it, and the stream then carries nothing, as
      `split` throws inside the detached writer. */
  lemma NonTextAnswerReturned(script: seq<Reply<AskOutput>>, k: nat)
    requires MaxAttempts <= |script| && k < MaxAttempts
    requires forall j :: 0 <= j < k ==> !Answered(script[j])
    requires Answered(script[k]) && Answer(script[k]).NotText?
    ensures Poll(script, Classify, MaxAttempts) == (Success(Answer(script[k])), k + 1)
  {
    PollFromStopsAtFirstDecision(script, Classify, MaxAttempts, 0, k);
  }
}
