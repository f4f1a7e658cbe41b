# A verified model of the copy-tool route handlers

This project models the server-side logic of a Next.js copy-writing tool that
drives an external workflow engine. It also models one client-side component.

- **Regional conversion** (`src/app/api/regional/route.ts`). The handler starts
  an American-to-British run and polls it, at most 20 times. It coerces the
  loosely typed converted text into a string. It then computes a positional
  word diff (`findChanges`) between the run's input copy and that text.
- **Copy analysis** (`src/app/api/analyze/route.ts`). The handler starts an
  analysis run and polls it, at most 10 times:
  - a 404 is retried;
  - any other failure ends the request;
  - a finished run without feedback is polled again.

  It then buckets the readability score (`parseInt` and the thresholds 75 and
  50). It cleans the three free-text feedback fields into lists of items.
- **Questions** (`src/app/api/ask/route.ts`). The handler polls a question run,
  at most 10 times, and swallows every error inside the loop. It then streams
  the answer as the pieces of `split(" ")`, each followed by a space.
- **Questions with a document**
  (`src/app/api/competitive-intelligence-assistant/route.ts`). This is the same
  loop with 30 attempts. An uploaded document is put in front of the question.
  The answer goes through a `ReadableStream` controller, which is modelled as a
  class with in-place state.
- **Highlighting** (`HighlightedText` in `src/app/regional/page.tsx`). The
  converted text is cut into the same runs. A running offset marks every run
  that a change lies closer to than the run is long.
- **MIME fallback** (`src/app/api/extract-text/route.ts`). An upload without a
  type gets one from the lower-cased text after the last dot of its name.

Every `fetch` is replaced by the next entry of a script of replies (module
`Engine`). A handler therefore becomes a method of its inputs and that script.
It returns its result and the list of outbound requests in order.

All four poll loops are instances of one schedule, `Engine.Poll`:
1. classify each reply as done, to be retried, or fatal;
2. stop at the first reply that is not to be retried, or when the attempts run
   out.

Each loop is an imperative `while` loop whose postcondition equals `Poll`. The
outcome lemma of each flow then says what that means for its replies.

Files:

| file | module | models |
|---|---|---|
| `wrappers.dfy` | `Wrappers` | `Option`, `Result` |
| `strings.dfy` | `Strings` | `\s`, `trim`, `match` with the whitespace/non-whitespace run pattern, `split`/`join` on one character, `pop` of a split, ASCII `toLowerCase` |
| `engine.dfy` | `Engine` | replies of the engine, outbound calls, the poll schedule and its characterisation |
| `regional.dfy` | `Regional` | `findChanges`, converted-text normalisation, `waitForResult`, `POST` |
| `analyze.dfy` | `Analyze` | `parseInt`, `getReadabilityStatus`, `cleanFeedback`, the poll loop, `POST` |
| `ask.dfy` | `Ask` | `waitForResult`, `streamResponse`, `POST` |
| `cia.dfy` | `Cia` | `waitForResult` with 30 attempts, `questionWithContext`, the stream controller, `POST` |
| `highlight.dfy` | `Highlight` | `HighlightedText` |
| `extract_text.dfy` | `ExtractText` | the MIME-type fallback, as written and corrected |

How the handlers treat failures and loosely typed replies:

- **Explicit failure flags are retried.** The regional, question and
  document-question loops throw "Workflow processing failed" inside their own
  `try`, and their `catch` only logs it (`Regional.Classify`, `Ask.Classify`).
  The analysis loop never reads the flag, so such a report counts as pending.
- **A transport error ends the analysis.** The analysis loop has no `try`, so a
  rejected status fetch ends the request (`Analyze.Classify`).
- **Only the analysis handler checks the run id.** The other handlers poll the
  run `undefined` when the start reply has no id (`Engine.StartedRun`,
  `Engine.IdText`).
- **Truthiness, not type, decides.** A member is tested with `||` or `!`. A
  truthy value of the wrong type passes that test and fails later, where a
  string or list method is called on it (`Engine.TextMember`):
  - a score that is a number makes `replace` throw;
  - an `extract_feedback` that is not a list has no usable first element;
  - an answer that is not a string ends the poll, and the stream carrying it
    ends without a chunk when `split` throws.

## Model

| member | source | states |
|---|---|---|
| Strings.Trim | src/app/api/regional/route.ts:34-35 | defines `trim` as leading, then trailing, whitespace removed; `TrimSlice`, `TrimEnds`, `TrimSolidStart` and `TrimTrimmed` state its meaning |
| Strings.TrimTrimmed | src/app/api/analyze/route.ts:114 | a string that is empty or has a visible character at both ends is its own trim |
| Strings.TrimSlice | src/app/api/regional/route.ts:34-35 | `trim` leaves exactly the slice of the string between a leading and a trailing whitespace run |
| Strings.TrimEnds | src/app/api/analyze/route.ts:111 | a trimmed string is empty or starts and ends with a character outside `\s` |
| Strings.TrimSolidStart | src/app/api/analyze/route.ts:114 | trimming a string that starts with a visible character keeps that character first, so the result is not empty |
| Strings.Tokenize | src/app/api/regional/route.ts:27-28 | the tokens concatenate back to the input; each is a non-empty run of whitespace or of non-whitespace; neighbours alternate between the classes; the first token starts with the first character |
| Strings.TokenAtOffset | src/app/api/regional/route.ts:52 | token `i` occurs in the text exactly at the sum of the lengths of the tokens before it |
| Strings.OffsetGrows | src/app/api/regional/route.ts:52 | the running offset grows by at least the length of every token passed |
| Strings.Split | src/app/api/ask/route.ts:54 | defines `split(sep)` on a single character, scanning from the left; `SplitPieces` and `JoinSplit` state its meaning |
| Strings.SplitPieces | src/app/api/ask/route.ts:54 | `split(sep)` gives one piece more than the separators in the string, and no piece holds the separator |
| Strings.JoinSplit | src/app/api/ask/route.ts:54 | joining the pieces of `split(sep)` with `sep` gives the string back |
| Strings.LastPiece | src/app/api/extract-text/route.ts:30 | defines `split(".").pop()` as the last piece of the split; `LastPieceEnds` and `LastPieceAfter` state its meaning |
| Strings.LastPieceEnds | src/app/api/extract-text/route.ts:30 | the piece `pop` takes from the split ends the string and holds no separator; it is shorter than the string exactly when there are several pieces, and then a separator precedes it |
| Strings.LastPieceAfter | src/app/api/extract-text/route.ts:30 | the piece after the last separator is what `pop` returns |
| Strings.ToLower | src/app/api/extract-text/route.ts:30 | `toLowerCase` keeps the length; no ASCII capital is left; every other character stays in place; each capital becomes its lower-case letter |
| Strings.ToLowerIdempotent | src/app/api/extract-text/route.ts:30 | lowering twice is lowering once |
| Engine.Poll | src/app/api/analyze/route.ts:64-143 | defines the shared schedule: one reply per attempt, stop at the first reply not to be retried, time out after the budget; its contract is given by the three lemmas below |
| Engine.PollFromStopsAtFirstDecision | src/app/api/analyze/route.ts:64-141 | polling ends at the first reply that is not to be retried, with that reply's verdict, after exactly as many requests as it took to reach it |
| Engine.PollFromTimesOut | src/app/api/ask/route.ts:9-46 | when every reply within the budget is to be retried, polling times out after exactly the budget of requests |
| Engine.PollCharacterised | src/app/api/regional/route.ts:65-126 | polling never exceeds the budget; every reply but the last consumed was to be retried; the last decides the result unless the budget is spent, which gives a timeout |
| Engine.StartedRun | src/app/api/regional/route.ts:157-171 | defines how a handler reads the start reply: a transport error, a status outside 200-299, an unparsable body or a missing `data` fails, otherwise `data.id`, possibly absent, names the run; the `Post` contracts of the regional, ask and competitive-intelligence handlers state that a failure ends the request after the one start call and that a success polls exactly that run |
| Regional.Diff | src/app/api/regional/route.ts:12-56 | defines `findChanges` on the two token lists; its meaning is stated by `DiffEntries`, `DiffBounds`, `DiffIncreasing`, `DiffComplete` and `DiffOfSame` |
| Regional.FindChanges | src/app/api/regional/route.ts:12-56 | the loop over the original tokens, with its running position, yields exactly `Diff` of the two token lists |
| Regional.TokensDiffer | src/app/api/regional/route.ts:34-43 | on tokens, the recording test holds exactly for two different words, neither of them whitespace |
| Regional.DiffEntries | src/app/api/regional/route.ts:33-48 | every entry has non-empty, different, whitespace-free original and converted words, and the original word occurs verbatim in the original text at the entry's position; each entry is that of one index present in both token lists: the trimmed original token, the trimmed converted token at the same index, and the original token's offset |
| Regional.DiffBounds | src/app/api/regional/route.ts:33-52 | there are no more entries than either text has tokens |
| Regional.DiffIncreasing | src/app/api/regional/route.ts:44-52 | entry positions strictly increase |
| Regional.DiffComplete | src/app/api/regional/route.ts:33-43 | an original token gets an entry at its offset exactly when the converted text has a differing word at the same index; so none past the end of the converted tokens, and none for equal words or whitespace |
| Regional.DiffOfSame | src/app/api/regional/route.ts:33-53 | comparing token lists that start alike yields no entries |
| Regional.DiffOneChange | src/app/api/regional/route.ts:33-53 | token lists equal but at one differing index yield exactly the entry for that index |
| Regional.ColourExample | src/app/api/regional/route.ts:27-55 | "The color is red" against "The colour is red" yields exactly the entry ("color", "colour", 4) |
| Regional.ConvertedText | src/app/api/regional/route.ts:92-109 | defines the text `convertedText` settles on; `NormaliseConvertedText` proves the reassignments compute it |
| Regional.NormaliseConvertedText | src/app/api/regional/route.ts:92-109 | a string passes unchanged; an object with a non-empty string `en` yields `en`; any other object yields its JSON text; null and undefined yield "" |
| Regional.Classify | src/app/api/regional/route.ts:65-120 | defines how one status reply is treated: a completed reply ends the loop with its response, every other reply is retried; `WaitOutcome` states the outcome |
| Regional.WaitOutcome | src/app/api/regional/route.ts:62-126 | at most 20 status requests; none completed before the last; success exactly when the last is completed, with its response; otherwise a timeout after all 20 |
| Regional.WaitForResult | src/app/api/regional/route.ts:58-127 | the retry loop, in which every failure is caught, follows the poll schedule with 20 attempts |
| Regional.Post | src/app/api/regional/route.ts:129-183 | no API key means failure with no request; a failed start means one request; otherwise one start with the copy and the two regions, then the polls of that run, whose result is returned |
| Analyze.ParseInt | src/app/api/analyze/route.ts:11 | defines `parseInt` without a radix: leading whitespace, a sign, a `0x` prefix, the longest digit run, `None` for NaN; `ParseDecimal` states its meaning on decimal text |
| Analyze.RemoveFirst | src/app/api/analyze/route.ts:11 | defines `replace("%", "")` through the index of the first `%`; `RemoveFirstOccurrence` states its meaning |
| Analyze.RemoveFirstOccurrence | src/app/api/analyze/route.ts:11 | removing a character from text whose first occurrence of it follows a prefix `a` and precedes a rest `b` leaves exactly `a` then `b`; text without the character is left alone |
| Analyze.FirstIndexAfter | src/app/api/analyze/route.ts:11 | `replace("%", "")` finds the first `%` after any prefix that has none |
| Analyze.ParseDecimal | src/app/api/analyze/route.ts:11 | `parseInt` reads every integer back from its decimal text |
| Analyze.ReadabilityStatus | src/app/api/analyze/route.ts:10-15 | defines `getReadabilityStatus`; `ReadabilityOfPercent` and the examples state its buckets |
| Analyze.ReadabilityOfPercent | src/app/api/analyze/route.ts:10-15 | an integer percentage is good from 75, needs improvement from 50, and is bad otherwise |
| Analyze.GoodExample | src/app/api/analyze/route.ts:10-15 | "80%" is good |
| Analyze.NeedsImprovementExample | src/app/api/analyze/route.ts:10-15 | "60%" needs improvement |
| Analyze.BadExample | src/app/api/analyze/route.ts:10-15 | "10%" is bad |
| Analyze.NotANumberExample | src/app/api/analyze/route.ts:10-15 | "N/A" reads as NaN and is bad |
| Analyze.ScoreText | src/app/api/analyze/route.ts:119-120 | a falsy score becomes "70%"; a truthy string is kept; a truthy score that is not a string gives no text, since `replace` throws on it; a text given is never empty |
| Analyze.DefaultReadability | src/app/api/analyze/route.ts:119-120 | without a truthy score the analysis shows "70%", which needs improvement |
| Analyze.ReplaceNewlines | src/app/api/analyze/route.ts:109 | the length is kept, no line break remains, each line break becomes a space, and every other character stays in place |
| Analyze.CollapseSpaces | src/app/api/analyze/route.ts:110 | whitespace is left only as single spaces; the result is empty, or starts with whitespace, exactly when the input is; `CollapseSqueezes` states that each whitespace run becomes exactly one space |
| Analyze.CollapseSqueezes | src/app/api/analyze/route.ts:110 | the collapse is the text's runs in order, with every maximal whitespace run replaced by exactly one space and every other run unchanged |
| Analyze.CollapseWord | src/app/api/analyze/route.ts:110 | a word without whitespace in front of the text passes through the collapse unchanged |
| Analyze.CollapseExample | src/app/api/analyze/route.ts:109-110 | "a \n b" collapses to "a b": the three-character run of spaces and a line break becomes one space |
| Analyze.CollapseKeepsText | src/app/api/analyze/route.ts:110 | collapsing whitespace keeps every other character, in order |
| Analyze.SeparatorAt | src/app/api/analyze/route.ts:112 | there is a match of `/\s*\*\s*/` exactly when the longest whitespace prefix is followed by a `*`; the match then spans that prefix, the `*` and the whole whitespace run after it, so what follows is visible or the end |
| Analyze.SplitFrom | src/app/api/analyze/route.ts:112 | defines `split(/\s*\*\s*/)` as a scan that ends the current piece at each separator match and moves one character into it elsewhere; `StarPieces`, `SplitKeepsContent` and `SplitBulleted` state its meaning |
| Analyze.StarPieces | src/app/api/analyze/route.ts:112 | on tidy text that does not start with whitespace, every piece of the split is tidy, holds no `*` and does not start with whitespace |
| Analyze.SplitKeepsContent | src/app/api/analyze/route.ts:112 | the pieces of the split together hold every character of the text other than whitespace and `*`, in order |
| Analyze.SplitBulleted | src/app/api/analyze/route.ts:112 | clean items joined with `" * "` split back exactly into those items: no separator is found inside an item and one is found at each `" * "` |
| Analyze.CleanFeedbackBulleted | src/app/api/analyze/route.ts:107-115 | `cleanFeedback` of clean items joined with `" * "` is exactly those items, so the split falls at the separators and nowhere else |
| Analyze.NonEmpty | src/app/api/analyze/route.ts:113 | `filter(Boolean)` keeps only non-empty items, all taken from the input |
| Analyze.TrimAll | src/app/api/analyze/route.ts:114 | one item per part, each empty or with a visible character at both ends, and each with exactly the visible characters of its part |
| Analyze.NonEmptyAppend | src/app/api/analyze/route.ts:113 | `filter(Boolean)` works part by part: the filter of two lists joined is the two filters joined, so with `NonEmptyOne` no parts are merged or reordered |
| Analyze.NonEmptyOne | src/app/api/analyze/route.ts:113 | on one part, `filter(Boolean)` drops it when it is empty and keeps it as it is otherwise |
| Analyze.NonEmptyConcat | src/app/api/analyze/route.ts:113 | the kept parts concatenate to the same text as all the parts |
| Analyze.CleanFeedback | src/app/api/analyze/route.ts:107-115 | defines `cleanFeedback` as the chain of its five steps; `CleanFeedbackItems` and `CleanFeedbackKeepsContent` state what it yields |
| Analyze.CleanFeedbackItems | src/app/api/analyze/route.ts:107-115 | every item is non-empty and trimmed, with no `*`, no line break and no two adjacent whitespace characters |
| Analyze.CleanFeedbackKeepsContent | src/app/api/analyze/route.ts:107-115 | the items together hold every character of the text other than whitespace and `*`, in order |
| Analyze.Assemble | src/app/api/analyze/route.ts:99-136 | defines the answer built from a finished run, and the failures reading it throws: no first element, a truthy non-string score, a feedback member that is not a string |
| Analyze.Classify | src/app/api/analyze/route.ts:64-141 | defines how one status reply is treated: 404 and unfinished runs are retried, a finished run is assembled, anything else is fatal; `AnalyzeOutcome` states the outcome |
| Analyze.WaitForAnalysis | src/app/api/analyze/route.ts:60-143 | the loop, with `continue` on 404 and no `try`, follows the poll schedule with 10 attempts |
| Analyze.AnalyzeOutcome | src/app/api/analyze/route.ts:60-143 | at most 10 status requests, all but the last pending; a timeout exactly when the last is pending too, which happens only after 10; otherwise the last reply decides |
| Analyze.RejectedStops | src/app/api/analyze/route.ts:77-88 | a status other than 404 after pending replies fails at once, with nothing further fetched |
| Analyze.WrongTypeStops | src/app/api/analyze/route.ts:95-120 | a finished run whose `extract_feedback` is truthy but not a list, or whose first score is truthy but not a string, fails at once, with nothing further fetched |
| Analyze.NotFoundThenComplete | src/app/api/analyze/route.ts:77-99 | two 404s and then a finished run with feedback take exactly three status requests and give the assembled analysis |
| Analyze.CheckedRun | src/app/api/analyze/route.ts:42-53 | a run id is only ever a non-empty string; a rejected start, an unparsable body or a missing id stops the request |
| Analyze.Post | src/app/api/analyze/route.ts:17-154 | no API key, a failed start or a missing run id each fail before any status request; otherwise the run is polled and a success carries the character count of the submitted text |
| Ask.Classify | src/app/api/ask/route.ts:9-41 | defines how one status reply is treated: a COMPLETE report with a truthy answer ends the loop with it, every other reply is retried; `AnswerOutcome` states the outcome |
| Ask.WaitForAnswer | src/app/api/ask/route.ts:5-47 | the retry loop, in which every failure is caught, follows the poll schedule with the given number of attempts |
| Ask.WaitForResult | src/app/api/ask/route.ts:5-47 | the question loop allows 10 attempts |
| Ask.AnswerOutcome | src/app/api/ask/route.ts:9-46 | at most the budget of requests; none answered before the last; success exactly when the last is answered, with its truthy answer; otherwise a timeout after the whole budget |
| Ask.Chunks | src/app/api/ask/route.ts:54-56 | defines the chunks of a string answer; `ChunksJoin` and `ChunksCount` state what they carry |
| Ask.StreamResponse | src/app/api/ask/route.ts:49-59 | a falsy text fails before any chunk, and so does a truthy one that is not a string, at `split`; otherwise every piece of `split(" ")` is yielded with a space after it, in order |
| Ask.ChunksJoin | src/app/api/ask/route.ts:54-56 | the chunks together are the text and one more space |
| Ask.ChunksCount | src/app/api/ask/route.ts:54-56 | there is one chunk more than the text has spaces, and each chunk ends in its only space |
| Ask.ChunksExample | src/app/api/ask/route.ts:54-56 | "a b c" streams as "a ", "b ", "c " |
| Ask.Post | src/app/api/ask/route.ts:61-140 | no API key means failure with no request; a failed start means one request; otherwise one start with the question, the polls of that run, and the chunks of the answer, none when the answer is not a string |
| Ask.PostNeverEmpty | src/app/api/ask/route.ts:103-107 | a polled answer is always truthy, so the "No answer received" check never fires |
| Ask.NonTextAnswerReturned | src/app/api/ask/route.ts:29-34 | a finished run with a truthy answer that is not a string ends the poll with that answer |
| Cia.WaitForResult | src/app/api/competitive-intelligence-assistant/route.ts:5-47 | the document-question loop follows the same schedule with 30 attempts |
| Cia.QuestionWithContext | src/app/api/competitive-intelligence-assistant/route.ts:71-73 | with a non-empty document, the question is the context header, the document, the question header and the message, each at its place; otherwise it is the message |
| Cia.QuestionEndsWithMessage | src/app/api/competitive-intelligence-assistant/route.ts:71-73 | the question always ends with the message, and equals it exactly when there is no document |
| Cia.StreamController.constructor | src/app/api/competitive-intelligence-assistant/route.ts:115-116 | a new stream is readable and holds no chunks |
| Cia.StreamController.Enqueue | src/app/api/competitive-intelligence-assistant/route.ts:119 | a readable stream appends the chunk and stays readable |
| Cia.StreamController.Close | src/app/api/competitive-intelligence-assistant/route.ts:121 | the chunks stay and the stream is closed |
| Cia.StreamController.Error | src/app/api/competitive-intelligence-assistant/route.ts:124 | the chunks stay and the stream has errored |
| Cia.Start | src/app/api/competitive-intelligence-assistant/route.ts:116-126 | a non-empty string answer appends its chunks in order and then closes the stream; any other answer errors the stream with no chunk |
| Cia.Post | src/app/api/competitive-intelligence-assistant/route.ts:61-140 | no API key means failure with no request; otherwise the start request carries the question with its context; a success is a closed stream of the answer's chunks, or an errored empty stream when the answer is not a string |
| Cia.StreamCarriesAnswer | src/app/api/competitive-intelligence-assistant/route.ts:108-121 | a streamed answer came within 30 requests and is truthy; a string answer is non-empty, and its chunks together are the answer and one space |
| Highlight.FindCovering | src/app/regional/page.tsx:33-35 | `find` returns the first change that covers the run, and no earlier change covers it |
| Highlight.PieceAt | src/app/regional/page.tsx:29-44 | defines the piece one run renders as: marked, with the first covering change's original word in the title, or plain; `RenderMarks` and `ChangeAtRunMarks` state its meaning |
| Highlight.Render | src/app/regional/page.tsx:16-48 | defines what `HighlightedText` renders, one piece per run; the `Render…` lemmas state its words, positions and marks |
| Highlight.HighlightedText | src/app/regional/page.tsx:16-48 | the loop with its running `currentPos` renders exactly `Render` of the text and the changes |
| Highlight.RenderWords | src/app/regional/page.tsx:23 | the rendered words are the runs of the text, in order |
| Highlight.RenderKeepsText | src/app/regional/page.tsx:23-44 | the rendered words together give back the text |
| Highlight.RenderPosition | src/app/regional/page.tsx:29-30 | the offset of each run is where its word sits in the text |
| Highlight.RenderMarks | src/app/regional/page.tsx:33-43 | a run is marked exactly when some change lies closer to its offset than it is long, and the title then names the first such change |
| Highlight.ChangeAtRunMarks | src/app/regional/page.tsx:33-35 | a change at a run's own offset always marks it |
| Highlight.NoChangesNoMarks | src/app/regional/page.tsx:33-35 | with no changes nothing is marked |
| Highlight.LongerNeighbourMarked | src/app/regional/page.tsx:29-43 | a change also marks a later run longer than its distance: in "a bcd" a change at 0 marks "a" and "bcd" but not the space |
| ExtractText.Extension | src/app/api/extract-text/route.ts:30 | the extension is the lower-cased end of the name that holds no dot, preceded by a dot unless it is the whole name |
| ExtractText.ExtensionAfterDot | src/app/api/extract-text/route.ts:30 | the extension of "stem.tail" is the lower-cased tail |
| ExtractText.KnownType | src/app/api/extract-text/route.ts:32-39 | the table has a type exactly for its six own keys, and no type in it is empty |
| ExtractText.MimeTypeAsWritten | src/app/api/extract-text/route.ts:28-42 | the lookup as written keeps a non-empty upload type |
| ExtractText.InheritedMemberLeaks | src/app/api/extract-text/route.ts:32-40 | as written, an untyped "notes.constructor" yields the inherited `constructor` member where a string belongs |
| ExtractText.MimeType | src/app/api/extract-text/route.ts:28-55 | a non-empty upload type is kept; otherwise the table entry for the extension, none when there is none; a type given is never empty |
| ExtractText.MimeTypeAgrees | src/app/api/extract-text/route.ts:28-42 | wherever the code as written yields a string or nothing, the corrected lookup yields the same; they differ only on inherited keys |
| ExtractText.UntypedByExtension | src/app/api/extract-text/route.ts:30-40 | an untyped upload gets the table entry for the lower-cased text after its last dot |
| ExtractText.UpperCasePdf | src/app/api/extract-text/route.ts:30-40 | an untyped "Report.PDF" is read as `application/pdf` |
| ExtractText.DotlessName | src/app/api/extract-text/route.ts:30-40 | a name without a dot is its own extension |

## Left out

- Network, timers and logging. Every `fetch` is a scripted reply, and nothing
  models wall-clock time. The `setTimeout` delays (2000, 5000, 1000 and 50 ms)
  are left out, as is every `console` call.
- Scripts are long enough. Each poll method requires a script at least as long
  as its attempt budget, so every fetch the loop makes has a reply.
- Request bodies and JSON parsing. The parsed inbound body is given as the
  handler's parameters. The engine's JSON is given as datatypes:
  - a member that the handler uses as a string is an `Engine.TextMember`:
    absent, a string, or another value with its truthiness;
  - `extract_feedback` is absent or falsy, a list, or a truthy value that is
    not a list (`Analyze.FeedbackList`);
  - where the handler treats an absent member and one of the wrong type
    alike, both are `None` (the regional run's input copy, whose `match`
    throws inside the `try` either way);
  - an unparsable body is its own constructor;
  - the text of an object's `JSON.stringify` is a given string
    (`Regional.Value`).
- Analyze.Classify: an `extract_feedback` that is an object with its own
  member "0" would be read like a list. The model reads every truthy
  non-list as one without a first element, which fails.
- Error texts. Every 500 response is a `Failure` constructor. The message text
  (including the engine's error body) is not modelled.
- `metadata: { api: true }` in the analysis start request is not part of
  `Call`.
- Strings are sequences of characters, one per UTF-16 code unit. `length` and
  positions count them, with no surrogate pairs or normalisation.
- Strings.ToLower: only ASCII capitals are lowered. No name in the MIME table
  can come from a non-ASCII capital, so the lookup result is the same.
- Analyze.ParseInt models only integer-valued readings. Its result is `None`
  for NaN; large values have no float rounding and there is no `-0`.
- TextEncoder. Chunks are strings, not encoded bytes.
- The question handler's detached writer (`TransformStream`, its
  `getWriter()`, and the asynchronous `write`/`close`) is collapsed into the
  list of chunks the stream carries: `Ask.Post`.
- Stream timing. The `ReadableStream` controller is modelled by
  `Cia.StreamController`. Backpressure and the point at which the client reads
  are not modelled.
- The rest of the text-extraction route: reading the form data, the "No file
  provided" answer, and the call into `office-text-extractor` with its result
  check. That extractor's code is not part of this model.
- All pages and components other than `HighlightedText`: rendering,
  `useState`, and the client-side fetch calls. `HighlightedText` is modelled as
  the list of pieces it renders, without React keys.
- Analyze.CleanFeedbackKeepsContent: no concrete example of `cleanFeedback` is
  proved. The general item and content lemmas are proved instead.

## Findings

| source | as written | input that shows it | evidently intended | confidence | as-written member | corrected member |
|---|---|---|---|---|---|---|
| src/app/api/extract-text/route.ts:32-40 | the lookup `mimeTypes[extension]` also reads members that every object literal inherits | an upload with no type named "notes.constructor" (or ending in ".__proto__") hands the extractor the `Object` constructor itself as its `mimeType`, not a string | the table's own six entries, and no type for any other extension | not executed | ExtractText.InheritedMemberLeaks | ExtractText.MimeType |
