/** `src/app/api/competitive-intelligence-assistant/route.ts`: the question
    handler again, with an optional uploaded document prepended to the
    question, a longer poll, and the answer pushed into a `ReadableStream`
    controller. */
module Cia {
  import opened Wrappers
  import opened Engine
  import Ask
  import Strings

  const Workflow := "WCFG-9f7642e1-c937-4c02-940a-f1697c5f1457"
  const MaxAttempts: nat := 30

  /** `waitForResult` of this handler: the loop of the question handler with
      at most 30 attempts. */
  method WaitForResult(script: seq<Reply<Ask.AskOutput>>) returns (result: Result<TextMember, Failure>, fetches: nat)
    requires MaxAttempts <= |script|
    ensures (result, fetches) == Poll(script, Ask.Classify, MaxAttempts)
  {
    result, fetches := Ask.WaitForAnswer(script, MaxAttempts);
  }

  // ------------------------------------------------------------- question

  const ContextHeader := "Context from uploaded document: "
  const QuestionHeader := "\n\nQuestion: "

  /** `questionWithContext`: with a truthy document, the document after the
      context header, then the question header and the message; the message
      alone otherwise. Both the document and the message can be read back
      from the question. */
  function QuestionWithContext(message: string, documentText: Option<string>): (question: string)
    ensures documentText.None? || documentText.value == "" ==> question == message
    ensures documentText.Some? && documentText.value != "" ==>
      var doc := documentText.value;
      var d := |ContextHeader|;
      var m := d + |doc| + |QuestionHeader|;
      && |question| == m + |message|
      && question[..d] == ContextHeader
      && question[d..d + |doc|] == doc
      && question[d + |doc|..m] == QuestionHeader
      && question[m..] == message
  {
    if documentText.Some? && documentText.value != "" then
      ContextHeader + documentText.value + QuestionHeader + message
    else
      message
  }

  /** The question with a document is never the bare message, and it always
      ends with the message. */
  lemma QuestionEndsWithMessage(message: string, documentText: Option<string>)
    ensures var q := QuestionWithContext(message, documentText);
      && |message| <= |q|
      && q[|q| - |message|..] == message
      && (q == message <==> documentText.None? || documentText.value == "")
  {
    var q := QuestionWithContext(message, documentText);
    if documentText.Some? && documentText.value != "" {
      var m := |ContextHeader| + |documentText.value| + |QuestionHeader|;
      assert q[m..] == message;
      assert |q| - |message| == m;
      assert |q| != |message|;
    }
  }

  // -------------------------------------------------------------- stream

  /** The states of a `ReadableStream` as its controller sees them. */
  datatype StreamState = Readable | Closed | Errored

  /** A `ReadableStreamDefaultController`: the chunks enqueued so far and
      the stream's state. */
  class StreamController {
    var chunks: seq<string>
    var state: StreamState

    constructor ()
      ensures chunks == [] && state == Readable
    {
      chunks := [];
      state := Readable;
    }

    /** `controller.enqueue(chunk)`: only a readable stream takes chunks. */
    method Enqueue(chunk: string)
      requires state == Readable
      modifies this
      ensures chunks == old(chunks) + [chunk] && state == Readable
    {
      chunks := chunks + [chunk];
    }

    /** `controller.close()`: the chunks stay, no more can follow. */
    method Close()
      requires state == Readable
      modifies this
      ensures chunks == old(chunks) && state == Closed
    {
      state := Closed;
    }

    /** `controller.error(e)`: the stream fails. */
    method Error()
      requires state == Readable
      modifies this
      ensures chunks == old(chunks) && state == Errored
    {
      state := Errored;
    }
  }

  /** `start(controller)`: every chunk the generator yields is enqueued in
      order and the stream is closed after the last one; an answer that is
      falsy or not a string makes the generator throw before its first
      chunk and the stream errors. */
  method Start(controller: StreamController, answer: TextMember)
    requires controller.state == Readable
    modifies controller
    ensures IsTruthy(answer) && answer.Text? ==>
      controller.chunks == old(controller.chunks) + Ask.Chunks(answer.text) && controller.state == Closed
    ensures !(IsTruthy(answer) && answer.Text?) ==> controller.chunks == old(controller.chunks) && controller.state == Errored
  {
    var streamed := Ask.StreamResponse(answer);
    if streamed.Failure? {
      controller.Error();
      return;
    }
    var chunks := streamed.value;
    for i := 0 to |chunks|
      invariant controller.state == Readable
      invariant controller.chunks == old(controller.chunks) + chunks[..i]
    {
      controller.Enqueue(chunks[i]);
      assert chunks[..i + 1] == chunks[..i] + [chunks[i]];
    }
    assert chunks[..|chunks|] == chunks;
    controller.Close();
  }

  // ------------------------------------------------------------------ POST

  /** What the client reads from the response stream. */
  datatype Streamed = Streamed(chunks: seq<string>, state: StreamState)

  /** `POST`: fails before any request without an API key; otherwise starts
      one run with the question in context, polls that run and streams the
      answer, closing the stream after its last chunk. */
  method Post(message: string, documentText: Option<string>, apiKey: string, start: StartReply, script: seq<Reply<Ask.AskOutput>>)
    returns (result: Result<Streamed, Failure>, calls: seq<Call>)
    requires MaxAttempts <= |script|
    ensures apiKey == "" ==> result == Failure(ApiKeyNotConfigured) && calls == []
    ensures apiKey != "" ==> |calls| >= 1 && calls[0] == StartRun(Workflow, map["question" := QuestionWithContext(message, documentText)])
    ensures apiKey != "" && StartedRun(start).Failure? ==>
      result == Failure(StartedRun(start).error) && |calls| == 1
    ensures apiKey != "" && StartedRun(start).Success? ==>
      var (r, n) := Poll(script, Ask.Classify, MaxAttempts);
      && calls[1..] == Fetches(Workflow, IdText(StartedRun(start).value), n)
      && (r.Success? && !IsTruthy(r.value) ==> result == Failure(NoAnswer))
      && (r.Success? && r.value.Text? && IsTruthy(r.value) ==> result == Success(Streamed(Ask.Chunks(r.value.text), Closed)))
      && (r.Success? && r.value.NotText? && IsTruthy(r.value) ==> result == Success(Streamed([], Errored)))
      && (r.Failure? ==> result == Failure(r.error))
  {
    if apiKey == "" {
      return Failure(ApiKeyNotConfigured), [];
    }
    var question := QuestionWithContext(message, documentText);
    calls := [StartRun(Workflow, map["question" := question])];
    var started := StartedRun(start);
    if started.Failure? {
      return Failure(started.error), calls;
    }
    var answer, fetches := WaitForResult(script);
    calls := calls + Fetches(Workflow, IdText(started.value), fetches);
    if answer.Failure? {
      return Failure(answer.error), calls;
    }
    if !IsTruthy(answer.value) {
      return Failure(NoAnswer), calls;
    }
    var controller := new StreamController();
    Start(controller, answer.value);
    if answer.value.Text? {
      assert controller.chunks == [] + Ask.Chunks(answer.value.text) == Ask.Chunks(answer.value.text);
    }
    result := Success(Streamed(controller.chunks, controller.state));
  }

  /** A string answer the handler streams came within 30 requests, is not
      empty, and comes back whole: its chunks together are the answer and
      one space. */
  lemma StreamCarriesAnswer(script: seq<Reply<Ask.AskOutput>>)
    requires MaxAttempts <= |script|
    ensures var (r, n) := Poll(script, Ask.Classify, MaxAttempts);
      r.Success? ==> 0 < n <= MaxAttempts && IsTruthy(r.value)
    ensures var (r, n) := Poll(script, Ask.Classify, MaxAttempts);
      r.Success? && r.value.Text? ==> r.value.text != "" && Strings.Concat(Ask.Chunks(r.value.text)) == r.value.text + " "
  {
    Ask.AnswerOutcome(script, MaxAttempts);
    var (r, n) := Poll(script, Ask.Classify, MaxAttempts);
    if r.Success? && r.value.Text? {
      Ask.ChunksJoin(r.value.text);
    }
  }
}
