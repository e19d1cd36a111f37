# nextjs-chat chat route, modelled in Dafny

This project models the server side of the nextjs-chat demo: the `POST` handler of the
`/api/chat` route. That handler covers three steps:

- It validates the request body against the zod schema `{ params: { messages: [{ role, text }] } }`
  (`validateBody`). The body is rejected with one of two 400 responses.
- For an accepted request it connects to a ModelSocket backend and opens the Llama 3.1 8B
  model. It seeds the session with the system prompt and then every client message, in order,
  and starts an assistant generation.
- It relays the generation's chunk stream to the browser as Server-Sent Events. Each visible
  chunk becomes `data: {"type":"text","text":…}` plus a blank line. A `{"done":true}` frame
  ends the stream, and a `{"type":"error",…}` frame is sent when a read rejects. The
  `finally` block then calls `reader.releaseLock()`, `controller.close()` and `socket.close()`.

The modules follow the route's structure:

- `Wrappers` holds `Option` and `Result`.
- `Validation` holds the JSON value model, the zod-style parse with its issue list, and
  `validateBody` with both rejection responses.
- `Sse` holds the `JSON.stringify` escaping used in the frames, the frame encoding, and a
  decoder standing in for the client, which reads the enqueued bytes back as frames.
- `Effects` holds the outside objects the route calls: the socket, the session, the stream
  reader and the stream controller. They are classes whose methods update their fields and
  record each call in one shared `Trace`.
- `Relay` holds the `start()` callback of the `ReadableStream`, as written and corrected (see
  Findings), together with the specification functions for the frames and calls it makes.
- `Seqs` holds the one sequence fact the trace proofs share.
- `Chat` holds the backend URL choice, the seeding loop and `POST` itself, both with the
  corrected relay (`Chat.Post`) and with the relay as written (`Chat.PostAsWritten`).

A generation is a value: its finite list of chunks, optionally followed by a read that rejects
at a given position with a given message. Each method is proved against a function of that
value. `Relay.Start` appends exactly `RelayEvents(output)` to the trace, and `Chat.Post`
appends exactly `PostEvents(raw, env, output)`; their as-written counterparts append
`RelayEventsAsWritten` and `PostEventsAsWritten`. The bytes the relay enqueues are
`Body` of those calls. The lemmas then state what the route promises
about those call sequences.

Where the code and its documentation differ, the model follows the code:

- The "invalid json body" response declares no `Content-Type`, so the Fetch standard's
  default for a string body, `text/plain;charset=UTF-8`, applies. Only the "invalid request
  body" response is declared `application/json`.
- `role` is checked only to be a string, so an empty role is accepted.
- Failures during cleanup are not caught. In particular, the `controller.close()` that follows
  `controller.error()` throws, which leaves the socket open (see Findings).

## Model

| member | source | states |
|---|---|---|
| Validation.ParseString | src/app/api/chat/route.ts:8-9 | a field is accepted exactly when it is a JSON string; otherwise there is one invalid_type issue at that path naming the expected and received kinds |
| Validation.ParseMessage | src/app/api/chat/route.ts:7-10 | an element is accepted exactly when it is an object whose `role` and `text` are strings, and then yields those two strings; a rejected element reports at least one issue |
| Validation.ParseList | src/app/api/chat/route.ts:15 | an accepted array yields one message per element; a rejected one reports at least one issue |
| Validation.ParseMessages | src/app/api/chat/route.ts:15 | a rejected `messages` field always reports at least one issue |
| Validation.ParseParams | src/app/api/chat/route.ts:14-16 | a rejected `params` object always reports at least one issue |
| Validation.SafeParse | src/app/api/chat/route.ts:13-17 | safeParse never fails without issues, so `details` is never empty |
| Validation.ParseListExact | src/app/api/chat/route.ts:7-10 | an array parses exactly when every element is an object with string `role` and `text`, and the parsed messages are those fields in array order |
| Validation.IssueJson | src/app/api/chat/route.ts:42 | an issue serialises with zod's default message, which is "Required" exactly when the value is missing, and with one path entry per path segment |
| Validation.InvalidJsonResponse | src/app/api/chat/route.ts:31-33 | the invalid-JSON response is a 400 whose body has only an `error` field; with no header declared, its type is the string body's default `text/plain;charset=UTF-8` |
| Validation.InvalidShapeResponse | src/app/api/chat/route.ts:39-48 | the invalid-shape response is a 400 declared `application/json` whose `details` hold the issues one for one, in order, and it always differs from the invalid-JSON response |
| Validation.ValidateBody | src/app/api/chat/route.ts:25-52 | every rejection is a 400; a body JSON.parse rejects, and only such a body, gets the "invalid json body" response |
| Validation.ValidateAcceptsExactlyWellShaped | src/app/api/chat/route.ts:36-51 | a parsed body is accepted if and only if it has the schema's shape, and then every message comes back, in order, with role and text unchanged |
| Validation.ShapeRejection | src/app/api/chat/route.ts:38-49 | a body of the wrong shape gets a 400 declared `application/json` with `error: "invalid request body"` and a non-empty `details` array |
| Validation.MalformedRejection | src/app/api/chat/route.ts:28-34 | unparseable JSON gets a 400 whose body is only `{"error":"invalid json body"}`, with no `details`, typed `text/plain;charset=UTF-8` because the code declares no type |
| Validation.ValidateToJson | src/app/api/chat/route.ts:19-23 | the JSON of any request body validates back to the same request |
| Sse.EscapedCharacters | src/app/api/chat/route.ts:97-100 | JSON.stringify escapes exactly the quote, the backslash and the control characters, each escape starts with a backslash, and no escape holds a line terminator |
| Sse.EscapeKeepsPlainText | src/app/api/chat/route.ts:97-100 | text with nothing to escape is written into the frame unchanged |
| Sse.EscapeHasNoLineBreak | src/app/api/chat/route.ts:97-100 | an escaped string contains no line feed and no carriage return, whatever the chunk text |
| Sse.UnescapeEscape | src/app/api/chat/route.ts:97-100 | JSON string escaping is undone by JSON string unescaping: every string round-trips |
| Sse.PayloadHasNoLineBreak | src/app/api/chat/route.ts:97-114 | no frame payload (text, done or error) contains a line feed or a carriage return |
| Sse.FrameIsOneLine | src/app/api/chat/route.ts:97-114 | every encoded frame is one `data: ` line followed by a blank line: its only line terminators are the two final line feeds, so no chunk text can split or end an SSE event early |
| Sse.DecodeEncode | src/app/api/chat/route.ts:97-114 | a client decoding one encoded frame gets that frame back, for text, done and error frames alike |
| Sse.LineEnd | src/app/api/chat/route.ts:100 | the line end found is the first line feed of the data, or the end of the data when there is none |
| Sse.DecodeEncodeAll | src/app/api/chat/route.ts:102-115 | a client decoding the concatenation of encoded frames recovers exactly that list of frames, in order |
| Effects.Socket.Connect | src/app/api/chat/route.ts:66-68 | connecting records one `connect(url)` call with the chosen URL |
| Effects.Socket.Open | src/app/api/chat/route.ts:69 | opening a model returns a fresh session bound to that model with an empty log |
| Effects.Socket.Close | src/app/api/chat/route.ts:120 | closing the socket records one `socket.close()` call |
| Effects.Session.Append | src/app/api/chat/route.ts:71-74 | an append adds exactly that (text, role) entry at the end of the session's log |
| Effects.Session.Gen | src/app/api/chat/route.ts:77-79 | starting a generation records the generation's role |
| Effects.Reader.constructor | src/app/api/chat/route.ts:83 | getReader gives a reader locked to the generation, positioned before its first chunk |
| Effects.Reader.Read | src/app/api/chat/route.ts:87 | a read yields the chunk at the current position, or done, or the rejection; only a chunk advances the position |
| Effects.Reader.ReleaseLock | src/app/api/chat/route.ts:118 | releasing the lock unlocks the reader and records the call |
| Effects.Controller.Enqueue | src/app/api/chat/route.ts:102 | enqueue on a readable stream records exactly those bytes |
| Effects.Controller.Error | src/app/api/chat/route.ts:116 | error moves a readable stream to errored and leaves a closed or errored stream as it was |
| Effects.Controller.Close | src/app/api/chat/route.ts:119 | close succeeds, and closes the stream, exactly when the stream is readable; otherwise it throws and leaves the state alone |
| Relay.DrawnCount | src/app/api/chat/route.ts:86-90 | the relay never draws more chunks than the generation holds |
| Relay.Drain | src/app/api/chat/route.ts:86-103 | the read loop enqueues one text frame per visible chunk drawn, in order, skips hidden ones, stops at done or at the rejecting read, and reports the rejection's message exactly when a read rejects |
| Relay.Forward | src/app/api/chat/route.ts:92-102 | one loop iteration enqueues the chunk's text frame, or nothing when the chunk is hidden |
| Relay.Conclude | src/app/api/chat/route.ts:105-116 | after the loop, exactly the done frame is enqueued; after a rejection, the error frame is enqueued and the stream is errored |
| Relay.Start | src/app/api/chat/route.ts:82-121 | the corrected relay makes exactly the calls `RelayEvents(output)` and leaves the stream closed, or errored when a read rejected |
| Relay.StartAsWritten | src/app/api/chat/route.ts:110-121 | the relay as written throws out of `finally` exactly when a read rejected, and its calls are `RelayEventsAsWritten(output)` |
| Relay.TextEventsAreEnqueues | src/app/api/chat/route.ts:86-103 | the loop's calls are exactly the enqueues of the text frames of the chunks drawn so far |
| Relay.RelayEnqueuesAreEnqueues | src/app/api/chat/route.ts:86-115 | everything the relay enqueues is the encoding of its frame list, text frames and then the terminal frame |
| Relay.TextFramesAppend | src/app/api/chat/route.ts:86-103 | the frames of two consecutive runs of chunks are the frames of each run, concatenated |
| Relay.HiddenChunkIgnored | src/app/api/chat/route.ts:92-94 | inserting a hidden chunk anywhere changes no frame |
| Relay.TextFramesAreVisibleChunks | src/app/api/chat/route.ts:92-100 | the text frames are, one for one and in order, the texts of the visible chunks |
| Relay.OnlyTextFrames | src/app/api/chat/route.ts:96-100 | the loop produces only text frames |
| Relay.CompletedRelay | src/app/api/chat/route.ts:86-109 | with no rejection, the relay enqueues every visible chunk's text frame and then exactly one done frame, last, and no error frame |
| Relay.FailedRelay | src/app/api/chat/route.ts:110-116 | when read k rejects, the relay enqueues the text frames of the chunks before k, then one error frame with the error's text, no done frame, and errors the stream |
| Relay.CleanupOnEveryPath | src/app/api/chat/route.ts:117-121 | on both paths the corrected relay ends with releaseLock, close and socket.close, in that order, each made exactly once |
| Relay.CleanupOnce | src/app/api/chat/route.ts:117-121 | each of the three cleanup calls occurs exactly once among all the corrected relay's calls |
| Relay.SocketLeakAsWritten | src/app/api/chat/route.ts:116-120 | as written, a rejected read means `socket.close()` is never called, where the corrected relay calls it once |
| Relay.NoSocketCloseAsWritten | src/app/api/chat/route.ts:116-120 | as written, the error path's tail holds no `socket.close()` |
| Relay.CompletedRelayAsWritten | src/app/api/chat/route.ts:117-121 | without a rejection, the relay as written behaves exactly like the corrected one |
| Relay.BodyOfEnqueues | src/app/api/chat/route.ts:102-115 | the bytes enqueued are the concatenation of the enqueued frame encodings, in order |
| Relay.BodyOfRelay | src/app/api/chat/route.ts:81-121 | the bytes the relay enqueues are the encoding of its frame list; the cleanup calls add no bytes |
| Relay.ClientReadsRelayFrames | src/app/api/chat/route.ts:97-115 | decoding the bytes the relay enqueues recovers exactly the relay's frames (on the error path the stream may discard queued bytes before the client reads them) |
| Relay.HiddenChunkExample | src/app/api/chat/route.ts:92-94 | for the chunks "Hi", hidden "SECRET" and " there", the relay enqueues "Hi", " there" and done |
| Chat.BackendUrl | src/app/api/chat/route.ts:66-68 | the backend URL is `MODELSOCKET_URL` when set and non-empty, the public Mixlayer endpoint otherwise, and never empty |
| Chat.SeedEntriesShape | src/app/api/chat/route.ts:71-75 | the seed is the system prompt with role "system", then one entry per client message, in order, with text and role carried over |
| Chat.Seed | src/app/api/chat/route.ts:71-75 | seeding appends exactly the seed entries to the session's log and makes one append call per entry |
| Chat.Converse | src/app/api/chat/route.ts:66-121 | an accepted request makes the calls of `PostHead` and then the calls of the corrected relay, or of the relay as written |
| Chat.Post | src/app/api/chat/route.ts:57-131 | POST with the corrected relay returns the validation error response unchanged, or an event stream with the three streaming headers, and makes exactly the calls `PostEvents` |
| Chat.PostAsWritten | src/app/api/chat/route.ts:57-131 | POST as written gives the same reply and makes exactly the calls `PostEventsAsWritten`, the same head followed by the relay as written |
| Chat.RejectedBeforeBackend | src/app/api/chat/route.ts:60-64 | a rejected body gets a 400 response and no backend call at all is made |
| Chat.MalformedReply | src/app/api/chat/route.ts:28-34 | unparseable JSON is answered with the "invalid json body" response |
| Chat.AppendedEntriesOfAppends | src/app/api/chat/route.ts:71-75 | the append calls of the seed carry exactly the seed entries |
| Chat.RelayAppendsNothing | src/app/api/chat/route.ts:81-121 | the relay appends nothing to the session |
| Chat.SessionSeededExactly | src/app/api/chat/route.ts:71-79 | over the whole request the session receives exactly the system prompt and then the client's messages, in order, and nothing else |
| Chat.HeadShape | src/app/api/chat/route.ts:66-79 | the calls before the relay are connect, open of the 8B model, the system append, one append per message and the assistant generation |
| Chat.AcceptedCallOrder | src/app/api/chat/route.ts:66-82 | an accepted request connects to the configured backend, opens the 8B model, appends the seed, starts the assistant generation and only then relays |
| Chat.SocketClosedOnce | src/app/api/chat/route.ts:117-121 | for an accepted request the corrected handler closes the socket exactly once, as the very last call |
| Chat.SocketClosedAsWritten | src/app/api/chat/route.ts:116-121 | for an accepted request POST as written closes the socket once when the generation ends normally and never when a read rejects |

## Left out

- `request.json()` is a parameter: the body arrives either unparseable or as a JSON value. Byte decoding and JSON parsing are not modelled.
- JSON numbers are modelled as reals. Only the kind of a number matters to the schema.
- zod's other behaviour is not modelled. Unknown keys are dropped, only `invalid_type` issues arise from this schema, and only their `path`, `expected` and `received` fields are kept, plus `message`.
- Chunk text holding lone surrogates is left out. A JavaScript string may hold them and JSON.stringify writes them as `\u` escapes, but a Dafny `char` is a Unicode scalar value and cannot hold one; for the same reason `Sse.Unescape` does not join `\u` surrogate pairs.
- `TextEncoder` is not modelled: the body is a string of characters, not UTF-8 bytes.
- The error frame's text is the error's string form. How a thrown value turns into that string is not modelled.
- The route is modelled as running to completion. The `ReadableStream` starts the relay without waiting, but the model runs `start()` inside `POST` and records its calls in one trace. Concurrency, back-pressure and the time at which the browser reads the body are left out.
- What the stream delivers after `controller.error()` is left out. `Body` is the bytes enqueued; the Streams standard lets an errored stream discard queued chunks, so on the error path a client may receive fewer frames than were enqueued, the error frame included.
- Client cancellation is left out. The route registers no `cancel` callback, so cancelling the response triggers no cleanup in this code.
- Failures of `connect`, `open`, `append` and `gen` are not modelled. They throw out of `POST` before any stream exists, and the ModelSocket client is not part of this model.
- `LLAMA_70B` is declared in the route but never used, so it is not modelled.
- The page component (`src/app/page.tsx`) and the rest of the repository are not part of this model.
- Effects.Controller.Enqueue: requires a readable stream. On the paths the route takes, enqueue is never called on a closed or errored stream, so the throwing case is not modelled.

## Findings

| source | as written | input that shows it | evidently intended | confidence | as-written member | corrected member |
|---|---|---|---|---|---|---|
| src/app/api/chat/route.ts:116-120 | After a read rejects, the `catch` calls `controller.error()`. Under the WHATWG Streams standard ("ReadableStreamDefaultController close"), the `controller.close()` in `finally` then throws a TypeError. `finally` stops there, so `socket.close()` is never called and the backend socket stays open. | a generation whose first read rejects: `Generation([], Some(ReadFailure(0, "boom")))` | the socket is closed on every exit path, exactly once | not executed | Relay.StartAsWritten, Relay.SocketLeakAsWritten, Chat.PostAsWritten, Chat.SocketClosedAsWritten | Relay.Start, Relay.CleanupOnEveryPath, Chat.Post, Chat.SocketClosedOnce |
