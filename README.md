# Streaming chat transcript of the agent explorer

This project models the core of the chat front end of the agent explorer in
Dafny: how a question is added to the transcript, how the reply is read from a
streamed HTTP response line by line, and how failures change the transcript.
The code exists in two copies that have drifted apart:

- the submit handler of the chat page (`handleSubmit` with `handleError`);
- the `sendMessage` operation of the `useMessages` hook.

The model has one module per concern:

- `Text`: JavaScript's `trim()`, the `/^data: /` replacement and `split("\n")` on strings.
- `Records`: what one complete line contributes. A blank line is skipped. A
  `data: ` prefix is stripped, the rest is trimmed and parsed, and a truthy
  `content` is delivered. `JSON.parse` is a parameter of type `Parser`.
- `Transcript`: messages are objects. Their `content` is written in place,
  and the hook removes a message by object identity. `Snapshot` gives the
  transcript's value as a sequence of `Entry` values.
- `Network`: the response as the handlers see it. The fetch can reject, or it
  gives a status and an optional body. A body is a sequence of already decoded
  chunks, plus whether the last read ends with `done` or rejects.
- `Reader`: the read loop. Pure functions (`Step`, `FeedAll`, `AfterText`,
  `Answer`, `AnswerWithoutTail`) define the reader's state. The
  `StreamReader` class is the loop itself, proved against those functions.
- `Page`: the `Home` class holds the page's query, transcript and flags.
  `HandleSubmit` is proved against the specification function `Reply`.
- `UseMessages`: the `MessagesHook` class. `SendMessage` is proved against
  `HookAdded` and `OutcomeOf`.
- `Divergence`: lemmas showing where the page and the hook disagree on the
  same response.

Main results:

- Chunking does not matter. Whatever chunks the text arrives in, the reader
  delivers the contents of every complete line of the whole text
  (`Reader.ChunkingIndependent`).
- The page handles the text left after the last newline once the stream ends;
  the hook never does. For every completed body, the page's reply is the
  hook's followed by what that final segment delivers (`Divergence.TailLost`),
  so for a body that ends without a newline the hook's reply lacks the last
  record (`Divergence.UnterminatedRecordLost`). Bodies that end
  with a newline give the same reply on both sides
  (`Divergence.SameWhenTerminated`).
- On a rejected fetch or a status outside 200-299, the page keeps the question
  and the hook removes it (`Divergence.FailureKeepsQuestionOnPageOnly`).
- With no body, or a read that fails, the hook removes the question but keeps
  the assistant message, empty or partial. The page fills an empty one with an
  apology (`Divergence.OrphanReply`).

## Model

| member | source | states |
|---|---|---|
| Text.IsSpace | src/app/page.tsx:162 | the characters `trim()` removes: the ECMAScript white space and line terminator code points |
| Text.TrimStart | src/app/page.tsx:162 | the leading half of `trim()`: characters are dropped from the front while they are white space |
| Text.TrimEnd | src/app/page.tsx:162 | the trailing half of `trim()`: characters are dropped from the back while they are white space |
| Text.Trim | src/app/page.tsx:164 | `s.trim()`: both halves, one after the other |
| Text.IsBlank | src/app/page.tsx:162 | `!line.trim()`: nothing is left after trimming |
| Text.TrimStartShape | src/app/page.tsx:162 | `trim()`'s leading pass removes exactly the leading white space: what it keeps is a suffix that does not start with white space |
| Text.TrimEndShape | src/app/page.tsx:162 | the trailing pass keeps a prefix, drops only white space, and what it keeps does not end with white space |
| Text.BlankIffAllSpace | src/app/page.tsx:162 | `line.trim()` is falsy exactly when every character of the line is white space |
| Text.TrimShape | src/app/page.tsx:164 | the trimmed payload is a contiguous piece of the line with white space cut from both ends only, and it neither starts nor ends with white space |
| Text.TrimIdempotent | src/app/page.tsx:164 | trimming twice is trimming once |
| Text.TrimUnchanged | src/app/page.tsx:164 | a string that neither starts nor ends with white space is its own trim |
| Text.StripDataPrefix | src/app/page.tsx:164 | `replace(/^data: /, "")` removes the prefix when the line starts with it and otherwise returns the line unchanged |
| Text.StripOnlyOnce | src/app/page.tsx:164 | the replacement removes only the first `data: ` |
| Text.StripBeforeTrim | src/app/page.tsx:164 | the prefix is removed before trimming, so a line with any non-empty run of white space before `data: ` keeps the prefix, and its payload is then that of `data: ` and the rest |
| Text.FirstNewline | src/app/page.tsx:158 | the index found is the first newline of the text, or its length when the text has none |
| Text.SplitNL | src/app/page.tsx:158 | `split("\n")` always gives at least one segment |
| Text.SplitNoNewline | src/app/page.tsx:158 | no segment of a split contains a newline |
| Text.JoinSplit | src/app/page.tsx:158 | joining the segments with newlines gives back the text |
| Text.SplitWhole | src/app/page.tsx:158 | a text without a newline splits into itself |
| Text.SplitAfterSegment | src/app/page.tsx:158 | a newline-free segment followed by a newline splits off as the first segment |
| Text.SplitJoin | src/app/page.tsx:158 | splitting newline-free segments joined with newlines gives back the segments |
| Text.FirstNewlinePrefix | src/app/page.tsx:156-158 | a newline in the buffered text is still the first newline once more text is appended |
| Text.SplitFirstLine | src/app/page.tsx:156-158 | a line the buffer already completes stays the first line after more text arrives |
| Text.SplitAppend | src/app/page.tsx:156-159 | splitting `x + y` gives the complete lines of `x`, then the split of `x`'s unterminated tail followed by `y` |
| Text.JoinLast | src/app/page.tsx:158-159 | the text ends with its last segment, after the last newline |
| Text.LastSegmentIsTail | src/app/page.tsx:159 | `lines.pop()` is the newline-free suffix after the last newline, or the whole text when there is none |
| Text.ConcatAppend | src/app/page.tsx:168 | appending each content to `fullContent` in turn gives the concatenation of all of them |
| Records.Payload | src/app/page.tsx:164 | the JSON text of a line: a leading `data: ` removed, then trimmed |
| Records.Delta | src/app/page.tsx:162-178 | what one complete line delivers: nothing for a blank line, an unparseable payload or a missing or falsy `content`; otherwise that content (the hook's loop at use-messages.ts lines 105-124 is the same) |
| Records.Deltas | src/app/page.tsx:161-180 | the contents a run of lines delivers, in line order |
| Records.DeltasAppend | src/app/page.tsx:161-180 | handling two runs of lines in order delivers the first run's contents, then the second's |
| Records.SkippedLine | src/app/page.tsx:162-178 | a blank line, an unparseable payload or a falsy `content` delivers nothing, and the lines after it are still handled |
| Records.AcceptedLine | src/app/page.tsx:164-175 | a line whose payload parses to a truthy `content` delivers exactly that content, after the earlier lines' contents |
| Transcript.Message.constructor | src/types/index.ts:1-4 | a message holds the role and content it is given; its role never changes afterwards |
| Transcript.Snapshot | src/app/page.tsx:169-174 | the transcript's value has one entry per message |
| Transcript.DistinctSnoc | src/hooks/use-messages.ts:36-37 | appending a new message object keeps the transcript free of repeated objects |
| Transcript.DistinctRemove | src/hooks/use-messages.ts:146 | removing one object keeps the transcript free of repeated objects |
| Transcript.Without | src/hooks/use-messages.ts:146 | `prev.filter((msg) => msg !== userMessage)`: every message object except the one named, in order (also line 68) |
| Transcript.WithoutAppend | src/hooks/use-messages.ts:146 | `filter` works piecewise on a concatenation |
| Transcript.WithoutAbsent | src/hooks/use-messages.ts:146 | filtering out an object the transcript does not hold changes nothing |
| Transcript.RollbackRemovesOnly | src/hooks/use-messages.ts:68 | the identity filter removes exactly the question's object wherever it stands, and keeps every other message in order |
| Reader.Step | src/app/page.tsx:156-180 | one chunk: the buffer plus the chunk is split on newlines, the last segment becomes the buffer, and the contents of the other segments are delivered in order |
| Reader.FeedAll | src/app/page.tsx:152-181 | the read loop: `Step` for every chunk, in order |
| Reader.Flush | src/app/page.tsx:183-197 | the tail pass: what was delivered, then what the buffer delivers when handled as a line |
| Reader.AfterText | src/app/page.tsx:156-159 | the state after a whole text arrives at once: the last segment buffered, the contents of the others delivered |
| Reader.Answer | src/app/page.tsx:148-197 | the page's reply once the stream is done: the contents of every segment of the whole decoded text, joined |
| Reader.AnswerWithoutTail | src/hooks/use-messages.ts:94-125 | the hook's reply once the stream is done: the contents of every segment but the last, joined |
| Reader.StepAfterText | src/app/page.tsx:152-181 | one more chunk takes the reader from the state after text `t` to the state after `t + chunk` |
| Reader.FeedAllAfterText | src/app/page.tsx:152-181 | feeding a list of chunks is feeding their concatenation at once |
| Reader.FeedAllFromStart | src/app/page.tsx:148-181 | from an empty buffer, the read loop reaches the state determined by the whole decoded text |
| Reader.ChunkingIndependent | src/app/page.tsx:148-197 | how the body is cut into chunks does not matter: the contents delivered are those of every complete line of the whole text, plus the final segment's when the tail pass runs |
| Reader.FlushAfterText | src/app/page.tsx:183-197 | the tail pass completes the contents of every segment of the text |
| Reader.TailDifference | src/app/page.tsx:183-197 | the reply with the tail pass is the reply without it plus what the final segment delivers |
| Reader.TerminatedBodyLosesNothing | src/app/page.tsx:183 | when the text is empty or ends with a newline, the tail pass adds nothing |
| Reader.UnterminatedRecord | src/app/page.tsx:183-197 | a single record with no newline after it is delivered only by the tail pass |
| Reader.StreamReader.constructor | src/app/page.tsx:148-150 | a fresh reader has an empty buffer and no content |
| Reader.StreamReader.HandleLine | src/app/page.tsx:162-178 | a line with a truthy `content` appends it to `fullContent` and writes `fullContent` into the last message; any other line changes nothing |
| Reader.StreamReader.HandleLines | src/app/page.tsx:161-180 | the lines of a chunk, in order, deliver their contents, and the last message shows `fullContent` once anything was delivered |
| Reader.StreamReader.Feed | src/app/page.tsx:156-180 | one chunk moves the reader to `Step` of its old state |
| Reader.StreamReader.FeedChunks | src/app/page.tsx:152-181 | the read loop moves the reader to `FeedAll` of its old state |
| Reader.StreamReader.ReadAll | src/app/page.tsx:148-181 | from a fresh reader and an empty message, the loop leaves the message showing exactly the contents of the complete lines of the whole text |
| Reader.StreamReader.Finish | src/app/page.tsx:183-197 | the tail pass leaves the delivered contents equal to those of every segment of the text |
| Page.ErrorFilled | src/app/page.tsx:212-215 | `handleError` on the last message: an empty assistant message becomes the apology, any other is kept |
| Page.BodyReply | src/app/page.tsx:145-200 | the placeholder after a readable body: the whole answer when the stream ends, `ErrorFilled` of the partial answer when a read rejects |
| Page.OkReply | src/app/page.tsx:141-200 | the placeholder after a status in 200-299: the apology when there is no body, otherwise `BodyReply` |
| Page.Reply | src/app/page.tsx:124-200 | what a submission adds after the question: nothing on a rejected fetch or a status outside 200-299, otherwise `OkReply` |
| Page.ErrorFilledChanges | src/app/page.tsx:208-217 | `handleError` changes the last message exactly when it is an empty assistant message; applying it twice is applying it once; the role never changes |
| Page.ReplyShape | src/app/page.tsx:139-200 | a submission adds at most one message after the question, and it is an assistant message; one is added exactly when the status is in 200-299; a reply with no body or a failed read is never empty |
| Page.Home.constructor | src/app/page.tsx:33-41 | the transcript starts with the greeting alone, the query is empty and both flags are clear |
| Page.Home.HandleError | src/app/page.tsx:208-219 | only the last message may change, to the apology when it is an empty assistant message; the loading flag is cleared |
| Page.Home.ReadBody | src/app/page.tsx:145-200 | the empty assistant message ends as `BodyReply`: every record's content when the stream ends, the part read so far or the apology when a read fails |
| Page.Home.RespondOk | src/app/page.tsx:141-200 | exactly one message is appended, whose value is `OkReply`; earlier messages are kept |
| Page.Home.Respond | src/app/page.tsx:124-200 | the transcript's value becomes its old value plus `Reply`; a rejected fetch or a status outside 200-299 leaves the question last and unchanged |
| Page.Home.Ask | src/app/page.tsx:117-136 | the question is appended as a new user message, the query is cleared, both flags are raised, and the request carries the question and the old transcript plus the question |
| Page.Home.Submit | src/app/page.tsx:117-204 | the transcript's value becomes the old value, then the question, then `Reply`; earlier messages are kept; the query is empty and both flags are clear |
| Page.Home.HandleSubmit | src/app/page.tsx:113-205 | a blank query or a submission while one is loading changes nothing and sends nothing; otherwise as `Submit` |
| UseMessages.OutcomeOf | src/hooks/use-messages.ts:58-146 | how a call ends: 429 first returns early; a rejected fetch, another status outside 200-299, a missing body or a failed read reach the `catch`; a stream that ends completes |
| UseMessages.BodyAdded | src/hooks/use-messages.ts:87-146 | what follows the old transcript once the placeholder is appended: the placeholder alone (empty or partial) when the body is missing or a read fails, the question and the reply without its tail when the stream ends |
| UseMessages.HookAdded | src/hooks/use-messages.ts:39-146 | what one call adds after the old transcript: nothing on 429, a rejected fetch or another status outside 200-299, otherwise `BodyAdded` |
| UseMessages.MessagesHook.constructor | src/hooks/use-messages.ts:26-27 | the transcript starts empty and the loading flag is clear |
| UseMessages.MessagesHook.Ask | src/hooks/use-messages.ts:33-54 | the loading flag is raised, the question is appended as a new user message, and the request carries the question and the old transcript plus the question |
| UseMessages.MessagesHook.Rollback | src/hooks/use-messages.ts:146 | exactly the question's object leaves the transcript; everything else stays in order |
| UseMessages.MessagesHook.Stream | src/hooks/use-messages.ts:87-146 | the message objects before the question are kept; the value after them is `BodyAdded`: no body or a failed read removes the question and keeps the placeholder; a stream that ends keeps both, with the contents of the complete lines only |
| UseMessages.MessagesHook.Respond | src/hooks/use-messages.ts:39-146 | the message objects before the question are kept, the value becomes the old value without the question plus `HookAdded`, and the outcome is `OutcomeOf`: 429 first, then a rejected fetch or any other status outside 200-299 |
| UseMessages.MessagesHook.SendMessage | src/hooks/use-messages.ts:32-150 | the message objects held before are kept, the transcript's value becomes its old value plus `HookAdded`, the outcome is `OutcomeOf`, the request carries the old transcript plus the question, and the loading flag ends clear |
| Divergence.SameWhenTerminated | src/hooks/use-messages.ts:97-125 | for a completed body that is empty or ends with a newline, the hook adds the same entries as the page |
| Divergence.TailLost | src/app/page.tsx:183-197 | for every completed body with a status in 200-299, the page's reply is the hook's followed by what the text after the last newline delivers |
| Divergence.UnterminatedRecordLost | src/app/page.tsx:183-197 | a final record without a newline after it reaches the page's reply but not the hook's, which stays empty |
| Divergence.FailureKeepsQuestionOnPageOnly | src/hooks/use-messages.ts:139-146 | on a rejected fetch or a status outside 200-299 neither side adds a reply; the page keeps the question and the hook removes it |
| Divergence.OrphanReply | src/hooks/use-messages.ts:87-91 | with no body or a failed read, the hook keeps one assistant message without its question; the page shows the same message with the apology applied |

## Left out

- Decoding: `TextDecoder` with `stream: true` is not modelled. Chunks are given as already decoded strings, so a multi-byte character split across reads is outside the model.
- I/O: the network, `fetch` and `reader.read()` are not modelled. The caller gives the response as a value: a rejection, or a status with an optional body of chunks and how the stream ends.
- The request: only the question and the message list are kept. Headers, the service URL, `teamId`, `type`, `instance` and the bearer token are left out.
- Access token: `getAccessToken` in `sendMessage` is awaited before the `try` block and is not modelled. If it rejects, the question is never appended and `isLoading` stays true.
- Side effects: toasts, `logEvent` (its failures are caught and ignored), the auth dialog, `console.error` and `e.preventDefault()` are left out, since none of them touch the transcript.
- The 429 branch: the JSON body of a 429 response is not modelled. If parsing it rejects, the generic `catch` runs and leaves the same transcript. The model reports such a call as `RateLimited`, where the source goes through the `catch`.
- JSON parsing: `JSON.parse` and the truthiness of `parsed.content` are a `Parser` parameter. `+=` on a non-string `content` is represented by the text the parser reports.
- React: state batching, stale closures and re-renders are not modelled. Each `setMessages`/`setIsLoading` call is applied at once, in program order. The request's message list is the transcript as it stood when the call began.
- Not modelled: the rendering that `isStreaming` drives (the model keeps it as a flag only); scrolling; the external-link dialog; the rest of the rendering; and `handleQuestionClick`, which sets the query and calls `handleSubmit`.
- Concurrency: two `sendMessage` calls in flight at once are not modelled, since the hook has no guard against them and each call is modelled whole.
