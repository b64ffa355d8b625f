# AI tutor and artifact pages — a Dafny model

This project models the logic behind two demo pages of the site and the two API routes one of them calls. The logic is the sequential state handling around each page and the way each route builds its upstream request.

- **Tutor chat page** (`app/tutor/page.tsx`), modules `Tutor` and `TutorSnapshot`.
  - A user message is sent and the assistant's reply streams in chunk by chunk.
  - A coalescing scheduler publishes the growing buffer at most once per animation frame.
  - When the stream ends, the whole reply is flushed and committed as exactly one assistant message.
  - The conversation is saved to `localStorage` and restored from it.
  - Pure helpers decide whether the view follows new content and list the sidebar's recent questions.
- **Welcome screen** (`components/tutor/WelcomeScreen.tsx`), module `Welcome`.
  - The greeting is chosen by the hour.
  - A submit, by the send button or by Enter without Shift, hands over the trimmed message; `HandleSubmit` models the form's submit, while in `HandleKeyDown` Shift+Enter does not submit.
  - Quick actions fill the message box.
- **Artifact page** (`app/artifacts/page.tsx`), module `Artifacts`.
  - Generation is guarded and its streamed chunks accumulate into `c1Response`.
  - An edit is guarded and replaces the artifact wholesale.
  - The file name of an exported PDF is derived from the title.
- **Artifact routes** (`app/api/artifact/generate/route.ts`, `app/api/artifact/edit/route.ts`), modules `GenerateRoute`, `EditRoute` and `ArtifactApi`.
  - The artifact id defaults to a fresh one.
  - The system prompt is resolved per artifact type.
  - The upstream messages are built in a fixed order.
  - A `{c1_artifact_type, id}` metadata envelope and the `X-Artifact-Id` header carry the artifact's type and id.
  - Each streamed chunk is mapped to its text, and the edit result is extracted from the completion.

Supporting modules:
- `Text` models `String.prototype.trim`, using the ECMAScript whitespace and line-terminator set, and string concatenation.
- `Json` models what `JSON.stringify` writes for strings and booleans. It also holds a reader for that output, which stands for `JSON.parse`.
- `Uuid` models `crypto.randomUUID` as an oracle that never repeats an id.
- `Wrappers` holds `Option` and the `??` operator.

State that the pages change in place is modelled as Dafny classes whose methods say exactly which fields they modify:
- `Tutor.TutorPage` holds the page's React state and refs.
- `Artifacts.ArtifactsPage` and `Welcome.WelcomeScreen` do the same for their pages.
- `Uuid.UuidSource` holds the ids issued so far.

A React state update is modelled as an assignment that takes effect in program order. Asynchronous steps are modelled as follows:
- A `fetch` outcome is a reply value passed in by the caller. This is `Tutor.ChatReply`, `Artifacts.StreamReply` or `Artifacts.EditReply`.
- The tutor's read loop consumes a script of events. Each event is either a decoded chunk or an animation frame that fires between reads.
- The browser's frame-callback queue is a field (`frameCallbacks`) that the page's `rafId` must mirror.
- Every value the pages display is recorded in a ghost log (`published`, `shown`), so properties about everything shown can be stated.

React effects are modelled as methods that the caller runs after the state they depend on changes. `HandleNewChat` removes the stored record. Because it also replaces `messages` and `hasStarted`, the persist effect runs right after it on a mounted page. `PersistEffect`'s contract then says that the stored record is the empty conversation under the new thread id.

## Model

| member | source | states |
|---|---|---|
| Tutor.IsNearBottom | app/tutor/page.tsx:46-51 | with no container the view follows; otherwise it follows exactly when scrollHeight − scrollTop − clientHeight, in fractional CSS pixels, is strictly below 100 |
| Tutor.UserPositions | app/tutor/page.tsx:246 | the positions of the user-role messages: every index listed holds a user message, they increase strictly, and every user message's index is listed |
| Tutor.UserMessages | app/tutor/page.tsx:246 | the filter is exactly the user-role subsequence: element k is the message at the k-th user position |
| Tutor.Reverse | app/tutor/page.tsx:246 | `.reverse()` keeps the length and puts element k at position n−1−k |
| Tutor.LastN | app/tutor/page.tsx:246 | `.slice(-n)` keeps the whole input when n is 0 (since `-0` is `0`) or exceeds its length, and otherwise exactly its last n elements; the result is always a tail of the input |
| Tutor.SidebarHistory | app/tutor/page.tsx:246 | the sidebar lists min(u, 10) entries for u user messages, and entry k is the (k+1)-th newest user message |
| Tutor.ReceivedSnoc | app/tutor/page.tsx:149-151 | reading one more chunk extends the buffer by exactly that chunk; a frame leaves it as it was |
| Tutor.HasChunkSome | app/tutor/page.tsx:146-151 | the recursive test for an arrived chunk holds exactly when some event is a chunk |
| Tutor.HasChunkSnoc | app/tutor/page.tsx:146-151 | a chunk has arrived after one more event exactly when one had arrived before or that event is a chunk |
| Tutor.FrameLogSnoc | app/tutor/page.tsx:137-151 | one more event extends the frame log by the value its frame shows, if it is a frame that finds a callback pending, and by nothing otherwise; afterwards a frame is pending exactly when that event was a chunk |
| Tutor.FrameStep | app/tutor/page.tsx:139-141 | a frame that publishes the latest content when one was pending, and nothing otherwise, extends the frame log by exactly its entry and leaves none pending |
| Tutor.FrameLogWithin | app/tutor/page.tsx:139-151 | every value in the frame log is a prefix of everything received, or the earlier latest content carried by a frame pending from before |
| Tutor.FrameShowsLatest | app/tutor/page.tsx:139-151 | a frame firing right after a chunk shows everything received so far: it is the last value of the frame log |
| Tutor.StreamLogWithin | app/tutor/page.tsx:137-169 | the values a stream publishes, frames and the final flush, are all prefixes of what arrived, except the content of a frame pending from before |
| Tutor.StreamShown | app/tutor/page.tsx:146-169 | reading a stream and then flushing and clearing on completion publishes exactly the stream's log, leaves a frame pending exactly when a broken stream ended in a chunk, and on completion shows the whole response just before the empty string |
| Tutor.NoStreamShown | app/tutor/page.tsx:124-131 | a failed request publishes nothing and leaves the pending frame and the latest content as they were |
| Tutor.PublishedWithinAppend | app/tutor/page.tsx:160-168 | publishing more prefixes of the response keeps every published value a prefix of it, or the stale value |
| Tutor.PublishedWithinPush | app/tutor/page.tsx:139-141 | a frame may publish a prefix of the buffer, or the content of a frame left pending from before, without breaking the guarantee |
| Tutor.PublishedWithinExtend | app/tutor/page.tsx:149-150 | a chunk arriving keeps every value published so far a prefix of the longer buffer |
| Tutor.PublishedWithinEmptyFirst | app/tutor/page.tsx:110 | clearing the screen first publishes the empty string, a prefix of any response |
| Tutor.ComposeTurnMessages | app/tutor/page.tsx:107-167 | the user's message appended first, then the reply's, gives one turn: the user's message, then exactly one assistant message only when the reply completes, under an id different from the user message's |
| Tutor.Restore | app/tutor/page.tsx:59-65 | an absent or empty stored value restores nothing; a non-empty one restores what it parses to, and only text opening like a stored record parses |
| Tutor.RestorePersisted | app/tutor/page.tsx:59-65 | the record the page stores is read back by the load effect as the same `{hasStarted, messages, threadId}` |
| Tutor.TutorPage.constructor | app/tutor/page.tsx:31-44 | initial state: not started, not mounted, no messages, not loading, auto-scroll on, a fresh thread id, no frame pending |
| Tutor.TutorPage.Publish | app/tutor/page.tsx:37 | `setStreamingContent(v)` shows v and logs it as published |
| Tutor.TutorPage.ScheduleUpdate | app/tutor/page.tsx:137-144 | registers a frame callback only when none is pending, so exactly one is outstanding afterwards |
| Tutor.TutorPage.RunFrame | app/tutor/page.tsx:139-142 | a firing frame publishes the latest buffer and clears the pending handle; with none pending nothing changes |
| Tutor.TutorPage.HandleScroll | app/tutor/page.tsx:53-55 | auto-scroll becomes `isNearBottom()` |
| Tutor.TutorPage.LoadEffect | app/tutor/page.tsx:57-71 | a stored record that parses restores hasStarted, messages and threadId; an absent, empty or unreadable one leaves them; the page is mounted either way |
| Tutor.TutorPage.PersistEffect | app/tutor/page.tsx:90-98 | once mounted, storage holds exactly the JSON of `{hasStarted, messages, threadId}`, which restores to the same record; before mounting nothing is written |
| Tutor.TutorPage.ReadEvent | app/tutor/page.tsx:137-151 | one read step keeps the read loop's state: the buffer grows by exactly the event's chunk and every value published stays a prefix of it or the earlier pending frame's content; a chunk leaves a frame scheduled (the one already pending, if any) and publishes nothing; a frame leaves none pending and publishes the latest content exactly when one was pending; so the published log stays exactly the frame log of the events read so far, and a frame is pending exactly when the last event read is a chunk |
| Tutor.TutorPage.ReadChunk | app/tutor/page.tsx:137-151 | a chunk extends the buffer by itself and becomes the latest content; afterwards a frame is scheduled, and one already pending is kept rather than replaced; the published log is still the frame log of the events read, now including the chunk |
| Tutor.TutorPage.ReadFrame | app/tutor/page.tsx:137-142 | a frame that fires leaves none pending; it publishes the latest content exactly once when a frame was scheduled and publishes nothing otherwise; it keeps the read loop's state and extends the frame log by exactly the value that frame shows |
| Tutor.TutorPage.ReadStream | app/tutor/page.tsx:137-153 | the buffer is the in-order concatenation of all chunks; `latestContentRef` ends as the whole buffer when any chunk arrived and is untouched otherwise; the values published meanwhile are exactly the frame log of the events: one value per frame that fires with a callback pending, namely everything received up to it, or the earlier latest content when no chunk has arrived yet; afterwards a frame is pending exactly when the last event is a chunk, or, with no events, exactly when one was pending before |
| Tutor.TutorPage.BeginTurn | app/tutor/page.tsx:101-122 | the user's message is appended and loading set before the request is built; the request carries the content, the thread id and fresh ids |
| Tutor.TutorPage.CommitTurn | app/tutor/page.tsx:155-169 | cancels the pending frame, publishes the full response, appends exactly one assistant message holding it under a fresh id, then clears the streaming state |
| Tutor.TutorPage.FinishStream | app/tutor/page.tsx:155-169 | after reading, a completed stream cancels the pending frame, publishes the full response and then the empty string, and appends exactly one assistant message; a broken stream leaves messages, published values, pending frame and streaming id as they were |
| Tutor.TutorPage.ReceiveStream | app/tutor/page.tsx:128-169 | a stream read to its end commits exactly one assistant message holding everything received, after a final flush with no frame left pending; a broken stream commits nothing and keeps the streaming id; the values published are exactly the frame log followed, on completion, by everything received and then the empty string; afterwards a frame is pending exactly when the stream broke after a trailing chunk (or broke before any event with one pending); `latestContentRef` holds everything received when any chunk arrived; every published value is a prefix of what arrived, except an earlier pending frame |
| Tutor.TutorPage.ReceiveReply | app/tutor/page.tsx:113-174 | a completed stream commits exactly one assistant message holding everything received; a failed request or broken stream commits nothing; a stream publishes exactly its frame log and, on completion, the final flush and the empty string, while a failed request publishes nothing and keeps the pending frame as it was; a frame stays pending after a broken stream that ended in a chunk; `latestContentRef` holds everything received when any chunk arrived and is untouched otherwise; loading ends in every case |
| Tutor.TutorPage.SendMessage | app/tutor/page.tsx:101-175 | user message first, exactly one assistant message only when the stream completes, under an id different from the user message's and never issued before; the values published are exactly the empty string, then the reply's frame log, then on completion the final flush and the empty string; a frame is left pending exactly when a broken stream ended in a chunk; `latestContentRef` as the last chunk left it; loading false afterwards; every published value a prefix of what arrived, except an earlier pending frame |
| Tutor.TutorPage.HandleSubmit | app/tutor/page.tsx:183-189 | sends only when the trimmed input is non-empty and nothing is loading, sends the trimmed text and clears the input, and the messages grow by exactly that turn: the trimmed user message, then the assistant reply when the stream completes; otherwise nothing changes |
| Tutor.TutorPage.HandleFirstMessage | app/tutor/page.tsx:177-181 | marks the chat started and sends the message as the next user turn; the messages grow by exactly that turn: the user message, then the assistant reply when the stream completes |
| Tutor.TutorPage.HandleNewChat | app/tutor/page.tsx:191-197 | empties the messages, clears the streaming content, starts a fresh thread id, sets hasStarted false and removes the stored record |
| TutorSnapshot.ParseRole | app/tutor/page.tsx:18 | a role read back is one the page writes |
| TutorSnapshot.MessageRoundTrip | app/tutor/page.tsx:16-20 | a stored message is read back unchanged, with what follows it untouched |
| TutorSnapshot.MessageItemsRoundTrip | app/tutor/page.tsx:24 | the elements of a stored message array are read back unchanged and in order |
| TutorSnapshot.MessagesRoundTrip | app/tutor/page.tsx:24 | a stored message array is read back unchanged |
| TutorSnapshot.EncodeSnapshot | app/tutor/page.tsx:92-97 | `JSON.parse(JSON.stringify(state))` gives back the same `{hasStarted, messages, threadId}` |
| TutorSnapshot.DecodeSnapshot | app/tutor/page.tsx:62 | only text that opens with the record's `{"hasStarted":` head is read as a record |
| Welcome.Greeting | components/tutor/WelcomeScreen.tsx:10-15 | "Good Morning" exactly for hours before 12, "Good Afternoon" exactly for 12 to 16, "Good Evening" exactly from 17; total |
| Welcome.Submission | components/tutor/WelcomeScreen.tsx:27-28 | a message is handed over exactly when it does not trim to nothing, and what is handed over is its non-empty trimmed text |
| Welcome.WelcomeScreen.constructor | components/tutor/WelcomeScreen.tsx:18-19 | the box starts empty and the greeting is "Hello" before the mount effect |
| Welcome.WelcomeScreen.MountEffect | components/tutor/WelcomeScreen.tsx:21-23 | after mounting, the greeting is the one for the hour |
| Welcome.WelcomeScreen.SetMessage | components/tutor/WelcomeScreen.tsx:112 | typing sets the box to the typed text |
| Welcome.WelcomeScreen.ChooseQuickAction | components/tutor/WelcomeScreen.tsx:123-131 | a quick action sets the box to exactly its label |
| Welcome.WelcomeScreen.HandleSubmit | components/tutor/WelcomeScreen.tsx:25-30 | hands the trimmed message over only when it is non-empty, and leaves the box as it is |
| Welcome.WelcomeScreen.HandleKeyDown | components/tutor/WelcomeScreen.tsx:32-37 | Enter without Shift submits; Shift+Enter or any other key hands nothing over |
| Artifacts.ExportFilename | app/artifacts/page.tsx:43-44 | the name always ends in ".pdf", and an empty title gives "artifact.pdf" |
| Artifacts.ExportFilenamePlain | app/artifacts/page.tsx:43-44 | a non-empty title without the extension keeps every character and gains ".pdf" |
| Artifacts.ExportFilenameReplacesExtension | app/artifacts/page.tsx:43-44 | a trailing ".pdf" in any ASCII case is replaced by ".pdf", and only that one, so the stem is kept |
| Artifacts.ExportFilenameIdempotent | app/artifacts/page.tsx:43-44 | naming an exported file's name again gives the same name |
| Artifacts.ExportFilenameBareExtension | app/artifacts/page.tsx:43-44 | a title that is only the extension yields ".pdf", not "artifact.pdf" |
| Artifacts.PromptPlaceholder | app/artifacts/page.tsx:132-135 | the slides placeholder exactly for slides and the report placeholder exactly for a report |
| Artifacts.EditedContent | app/artifacts/page.tsx:118-123 | new content exists only for an ok edit response |
| Artifacts.EditedContentOfRoute | app/artifacts/page.tsx:122-123 | what the edit route answers is exactly what the page installs: the completion's first content |
| Artifacts.PartialResponses | app/artifacts/page.tsx:59-93 | n chunks show n + 1 values: the cleared one, then one per chunk |
| Artifacts.PartialResponsesAt | app/artifacts/page.tsx:89-92 | after k chunks the page shows the concatenation of the first k chunks |
| Artifacts.PartialResponsesGrow | app/artifacts/page.tsx:89-92 | what is shown only grows: each value is a prefix of every later one |
| Artifacts.ArtifactsPage.constructor | app/artifacts/page.tsx:12-18 | the page starts empty and idle, set to make slides, with no artifact id |
| Artifacts.ArtifactsPage.ChooseType | app/artifacts/page.tsx:184 | the toggle sets the artifact type |
| Artifacts.ArtifactsPage.GenerateArtifact | app/artifacts/page.tsx:56-99 | a prompt that trims to nothing changes nothing; otherwise a fresh id is assigned, the trimmed prompt is sent with the type and that id, c1Response ends as the concatenation of the chunks read, and loading ends |
| Artifacts.ArtifactsPage.ReadResponse | app/artifacts/page.tsx:85-93 | c1Response is cleared, then after each chunk equals the concatenation of all chunks so far |
| Artifacts.ArtifactsPage.ApplyEdit | app/artifacts/page.tsx:101-130 | a no-op unless the trimmed instruction, the artifact and its id are all non-empty; success replaces the artifact wholesale and clears the instruction; failure leaves both; editing ends |
| GenerateRoute.ArtifactId | app/api/artifact/generate/route.ts:20 | the caller's id when supplied, even an empty one, otherwise the fresh one |
| GenerateRoute.SystemPrompt | app/api/artifact/generate/route.ts:21-22 | the caller's system prompt when supplied, otherwise the default for the artifact type |
| GenerateRoute.DefaultSystemPrompt | app/api/artifact/generate/route.ts:5-10 | each type's default prompt is non-empty, and the report prompt is used exactly for reports |
| GenerateRoute.HeaderValue | app/api/artifact/generate/route.ts:53-60 | nothing is found exactly when no header has the name; otherwise the value is that of the first header with the name |
| GenerateRoute.ResponseHeaders | app/api/artifact/generate/route.ts:53-60 | each of the four headers is found under its own name: `text/event-stream`, `no-cache, no-transform`, `keep-alive` and the artifact id |
| GenerateRoute.Post | app/api/artifact/generate/route.ts:12-62 | fixed model, streaming; messages exactly [system: resolved prompt, user: prompt]; the envelope reads back as the type and id; `X-Artifact-Id` is that id |
| GenerateRoute.DeltaText | app/api/artifact/generate/route.ts:49 | a chunk's text is its first choice's delta content, or "" when any link is missing |
| GenerateRoute.RelayedText | app/api/artifact/generate/route.ts:47-51 | what the caller has read after any number of upstream chunks is a prefix of the whole relayed body |
| GenerateRoute.RelayedTextAppend | app/api/artifact/generate/route.ts:47-51 | the relay neither drops, reorders nor duplicates: two runs of chunks relay as the two texts in order |
| GenerateRoute.RelayedTextSnoc | app/api/artifact/generate/route.ts:47-51 | one more chunk appends exactly its text |
| EditRoute.Post | app/api/artifact/edit/route.ts:18-31 | fixed model, not streaming; messages exactly [assistant: existing content, user: instruction]; the envelope reads back as the type and the id unchanged |
| EditRoute.ResultContent | app/api/artifact/edit/route.ts:33 | the first choice's message content, or "" when any link is missing |
| EditRoute.ContentBody | app/api/artifact/edit/route.ts:35 | the `{content}` body reads back as its content |
| EditRoute.ReadContentBody | app/api/artifact/edit/route.ts:35 | only text that opens with the `{"content":` head is read as a body |
| EditRoute.Respond | app/api/artifact/edit/route.ts:33-35 | the body is an object whose only field, content, is the extracted content |
| ArtifactApi.ParseTypeName | app/api/artifact/generate/route.ts:15 | a type name read back is the name of that type |
| ArtifactApi.EncodeEnvelope | app/api/artifact/generate/route.ts:40-43 | the stringified `{c1_artifact_type, id}` reads back as the same type and id |
| ArtifactApi.DecodeEnvelope | app/api/artifact/generate/route.ts:40-43 | only text that opens with the `{"c1_artifact_type":` head is read as an envelope |
| Text.Trim | app/tutor/page.tsx:185 | the result has no whitespace at either end, is empty exactly when the input is all whitespace, and is the input with only whitespace removed at the ends |
| Text.ConcatAppend | app/artifacts/page.tsx:90-91 | concatenating two runs of chunks is concatenating their concatenations |
| Text.ConcatSnoc | app/artifacts/page.tsx:90-91 | one more chunk appends exactly its text |
| Text.ConcatPrefixes | app/artifacts/page.tsx:90-91 | of two runs of the first chunks, the shorter one's concatenation is a prefix of the longer one's |
| Text.ConcatPrefix | app/artifacts/page.tsx:90-91 | the concatenation of the first chunks is a prefix of the concatenation of all |
| Json.Expect | app/tutor/page.tsx:62 | a literal is accepted exactly when the text opens with it, and then the text after it is returned |
| Json.ReadString | app/tutor/page.tsx:62 | reading a string consumes part of the input |
| Json.QuoteRoundTrip | app/tutor/page.tsx:97 | any string `JSON.stringify` writes, control characters and quotes included, reads back unchanged |
| Json.BoolRoundTrip | app/tutor/page.tsx:23 | a stringified boolean reads back unchanged |
| Uuid.UuidSource.RandomUuid | app/tutor/page.tsx:103 | each id is non-empty and differs from every id issued before |
| Wrappers.Option.GetOr | app/api/artifact/generate/route.ts:20 | `a ?? b` is a's value when present and b otherwise |

## Left out

- `TextDecoder`, `fetch`, `Response` and the OpenAI client are left out. The pages see already-decoded chunks and a reply value, so UTF-8 boundary handling is not modelled.
- `transformStream` is modelled only as the per-chunk mapping `DeltaText` and its in-order concatenation (`RelayedText`). Its buffering and server-sent-event framing are not modelled.
- Chunk boundaries are not modelled. The page receives arbitrary decoded chunks, so the page-side chunks are not tied to the route's deltas one for one.
- `JSON.parse` is modelled only on the exact whitespace-free text that `JSON.stringify` writes for these records. Stored text in any other form counts as unreadable, and the load effect keeps the defaults for it.
- A record that parses but has the wrong shape is not modelled. In the code such a record would set `undefined` fields.
- An edit body without a `content` field is not modelled either. Parsing such a body would set `c1Response` to `undefined`; here it counts as a failed edit.
- An `artifactType` outside "report" and "slides" is left out. The type system admits only those two, so `DEFAULT_SYSTEM_PROMPTS[artifactType]` is always defined in the model.
- Interleaving with other handlers while a stream is awaited is left out. `SendMessage`, `GenerateArtifact` and `ApplyEdit` run to completion.
- The 100 ms `setTimeout` before the welcome screen's message is sent is left out. `HandleFirstMessage` sends immediately.
- `crypto.randomUUID` is an oracle whose ids are distinct and non-empty. Their UUID format is not modelled.
- A thread id restored from storage is not checked against future fresh ids.
- The unmount cleanup, which cancels a pending frame, is left out.
- The auto-scroll effect (`scrollIntoView`), the sidebar toggle, `C1Component` rendering, theming and motion are left out. So is the export request to `/api/export-pdf`. Its file-name rule is modelled.
- Header names are compared exactly. Case-insensitive header lookup is not modelled.
- Strings are sequences of Unicode scalar values. Lone UTF-16 surrogates, which JavaScript strings may hold and `JSON.stringify` writes as `\udxxx` escapes, are not modelled.
- app/api/chat/route.ts is not part of this model. The tutor's `/api/chat` request is modelled only as the `ChatRequest` value the page builds.
- Tutor.TutorPage.SendMessage: the prefix guarantee has an exception. A frame left pending by an earlier broken stream may publish that stream's buffer once at the start of the next turn.
- A failed or broken generation keeps the partial `c1Response` that was already shown; the `catch` branch only logs, so it is not cleared.
- A broken tutor stream keeps `streamingContent` and `streamingIdRef` as they were and commits nothing; the `catch` branch only logs, and `finally` ends loading.
