/** The workflow engine as the route handlers see it. Every `fetch` the
    handlers make is replaced by the next entry of a script of replies, so a
    handler becomes a function of its inputs and of that script. The retry
    loops are all instances of one schedule, `Poll`: classify each reply as
    done, to be retried or fatal, and stop at the first reply that is not to
    be retried or when the attempts run out. */
module Engine {
  import opened Wrappers

  /** Why a route handler answers with an error (HTTP 500). */
  datatype Failure =
    | ApiKeyNotConfigured         // "API key not configured"
    | NetworkError                // the `fetch` promise rejected
    | StartRejected(status: int)  // the start request answered a non-2xx status
    | MalformedPayload            // JSON.parse failed, or reading the reply threw a TypeError (a member missing or of another type)
    | NoRunId                     // "No run ID received from API"
    | ResultsRejected(status: int) // a status request answered a non-2xx status other than 404
    | Timeout                     // "Timeout waiting for result" / "Analysis timed out"
    | NoTextToStream              // "No text to stream"
    | NoAnswer                    // "No answer received"

  /** `response.ok`. */
  predicate IsOk(status: int) {
    200 <= status <= 299
  }

  /** One reply of the endpoint that reports a run: a rejected `fetch`, or an
      HTTP status with a body. `O` is the flow's own output record. */
  datatype Reply<O> = TransportError | Http(status: int, body: Body<O>)

  /** The body of a run report: not JSON at all, or the top-level `status` and
      the `data` member (absent when `None`). */
  datatype Body<O> = Unparsable | Parsed(status: string, data: Option<RunData<O>>)

  /** `data` of a run report: the run's status, whether it carries a truthy
      `error`, and its output. */
  datatype RunData<O> = RunData(status: string, error: bool, output: O)

  /** One reply of the endpoint that starts a run. */
  datatype StartReply = StartTransportError | StartHttp(status: int, body: StartBody)

  /** The body of a start reply: not JSON, or its `data` member with its `id`. */
  datatype StartBody = StartUnparsable | StartParsed(data: Option<StartData>)

  datatype StartData = StartData(id: Option<string>)

  /** A member of the engine's JSON that the handler uses as a string:
      absent (or `null`), a string, or a value of another type, which is
      falsy (`0`, `false`) or truthy (any other number, `true`, an object, a
      list). */
  datatype TextMember = Absent | Text(text: string) | NotText(truthy: bool)

  /** JavaScript truthiness of such a member. */
  predicate IsTruthy(m: TextMember) {
    match m
    case Absent => false
    case Text(text) => text != ""
    case NotText(truthy) => truthy
  }

  /** The text the JavaScript template literal produces for a run id. */
  function IdText(id: Option<string>): string {
    if id.Some? then id.value else "undefined"
  }

  /** The run id a handler that does not check it goes on with after the
      start request, or why it stops: a rejected fetch, a non-2xx status, a
      body that does not parse, or a body without `data`. */
  function StartedRun(start: StartReply): Result<Option<string>, Failure> {
    match start
    case StartTransportError => Failure(NetworkError)
    case StartHttp(status, body) =>
      if !IsOk(status) then Failure(StartRejected(status))
      else if body.StartUnparsable? || body.data.None? then Failure(MalformedPayload)
      else Success(body.data.value.id)
  }

  /** An outbound request to the engine, in the order the handler issues them. */
  datatype Call =
    | StartRun(workflow: string, variables: map<string, string>)
    | FetchRun(workflow: string, runId: string)

  /** `n` status requests for one run. */
  function Fetches(workflow: string, runId: string, n: nat): seq<Call> {
    seq(n, _ => FetchRun(workflow, runId))
  }

  // ------------------------------------------------------------ polling

  /** How a poll loop treats one reply. */
  datatype Step<T> = Done(value: T) | Retry | Abort(failure: Failure)

  /** The result a step that ends polling gives. */
  function Verdict<T>(step: Step<T>): Result<T, Failure>
    requires !step.Retry?
  {
    if step.Done? then Success(step.value) else Failure(step.failure)
  }

  /** Polling from attempt `attempts` on: the result and the number of
      replies consumed in all. */
  function PollFrom<R, T>(script: seq<R>, classify: R -> Step<T>, maxAttempts: nat, attempts: nat): (Result<T, Failure>, nat)
    requires attempts <= maxAttempts <= |script|
    decreases maxAttempts - attempts
  {
    if attempts == maxAttempts then (Failure(Timeout), attempts)
    else
      var step := classify(script[attempts]);
      if step.Retry? then PollFrom(script, classify, maxAttempts, attempts + 1)
      else (Verdict(step), attempts + 1)
  }

  /** The schedule every poll loop of the handlers follows: at most
      `maxAttempts` requests, one reply each. */
  function Poll<R, T>(script: seq<R>, classify: R -> Step<T>, maxAttempts: nat): (Result<T, Failure>, nat)
    requires maxAttempts <= |script|
  {
    PollFrom(script, classify, maxAttempts, 0)
  }

  /** Polling stops at the first reply that is not to be retried, after
      exactly as many requests as it took to get there. */
  lemma {:induction false} PollFromStopsAtFirstDecision<R, T>(script: seq<R>, classify: R -> Step<T>, maxAttempts: nat, attempts: nat, k: nat)
    requires attempts <= k < maxAttempts <= |script|
    requires forall j :: attempts <= j < k ==> classify(script[j]).Retry?
    requires !classify(script[k]).Retry?
    ensures PollFrom(script, classify, maxAttempts, attempts) == (Verdict(classify(script[k])), k + 1)
    decreases k - attempts
  {
    if attempts < k {
      PollFromStopsAtFirstDecision(script, classify, maxAttempts, attempts + 1, k);
    }
  }

  /** When every reply within the budget is to be retried, polling times out
      after exactly `maxAttempts` requests. */
  lemma {:induction false} PollFromTimesOut<R, T>(script: seq<R>, classify: R -> Step<T>, maxAttempts: nat, attempts: nat)
    requires attempts <= maxAttempts <= |script|
    requires forall j :: attempts <= j < maxAttempts ==> classify(script[j]).Retry?
    ensures PollFrom(script, classify, maxAttempts, attempts) == (Failure(Timeout), maxAttempts)
    decreases maxAttempts - attempts
  {
    if attempts < maxAttempts {
      PollFromTimesOut(script, classify, maxAttempts, attempts + 1);
    }
  }

  /** The whole behaviour of polling from attempt `attempts` on: it never
      goes past `maxAttempts`; every reply before the last one consumed was
      to be retried; if the last one was not, it decides the result;
      otherwise the budget is spent and the result is a timeout. */
  lemma {:induction false} PollFromCharacterised<R, T>(script: seq<R>, classify: R -> Step<T>, maxAttempts: nat, attempts: nat)
    requires attempts <= maxAttempts <= |script|
    ensures var (r, n) := PollFrom(script, classify, maxAttempts, attempts);
      && attempts <= n <= maxAttempts
      && (n == attempts ==> attempts == maxAttempts)
      && (forall j :: attempts <= j < n - 1 ==> classify(script[j]).Retry?)
      && (n > attempts && !classify(script[n - 1]).Retry? ==> r == Verdict(classify(script[n - 1])))
      && (n == attempts || classify(script[n - 1]).Retry? ==> n == maxAttempts && r == Failure(Timeout))
    decreases maxAttempts - attempts
  {
    if attempts < maxAttempts && classify(script[attempts]).Retry? {
      PollFromCharacterised(script, classify, maxAttempts, attempts + 1);
    }
  }

  /** `PollFromCharacterised` for a whole poll. */
  lemma PollCharacterised<R, T>(script: seq<R>, classify: R -> Step<T>, maxAttempts: nat)
    requires maxAttempts <= |script|
    ensures var (r, n) := Poll(script, classify, maxAttempts);
      && n <= maxAttempts
      && (n == 0 ==> maxAttempts == 0)
      && (forall j :: 0 <= j < n - 1 ==> classify(script[j]).Retry?)
      && (n > 0 && !classify(script[n - 1]).Retry? ==> r == Verdict(classify(script[n - 1])))
      && (n == 0 || classify(script[n - 1]).Retry? ==> n == maxAttempts && r == Failure(Timeout))
  {
    PollFromCharacterised(script, classify, maxAttempts, 0);
  }
}
