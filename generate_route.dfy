/** `POST /api/artifact/generate`: builds the streaming upstream request from the JSON
    body and relays each upstream chunk's text to the caller, tagging the response with
    the artifact id. */
module GenerateRoute {
  import opened Wrappers
  import opened ArtifactApi
  import Text

  /** The JSON body the route reads. */
  datatype GenerateBody = GenerateBody(
    prompt: string,
    artifactType: ArtifactType,
    systemPrompt: Option<string>,
    artifactId: Option<string>)

  const ReportSystemPrompt: string :=
    "Generate a professional business report with clear sections, data visualizations where appropriate, and actionable insights."
  const SlidesSystemPrompt: string :=
    "Generate a presentation with a clear structure, compelling visuals, and speaker notes where helpful."

  /** The system prompt used when the caller supplies none: one fixed, non-empty prompt
      per artifact type, and the two types' prompts differ. */
  function DefaultSystemPrompt(t: ArtifactType): (p: string)
    ensures p != []
    ensures p == ReportSystemPrompt <==> t == Report
  {
    assert |ReportSystemPrompt| != |SlidesSystemPrompt|;
    match t
    case Report => ReportSystemPrompt
    case Slides => SlidesSystemPrompt
  }

  /** The caller's `artifactId` when supplied (even an empty one), else the fresh id. */
  function ArtifactId(body: GenerateBody, freshId: string): (id: string)
    ensures body.artifactId.Some? ==> id == body.artifactId.value
    ensures body.artifactId.None? ==> id == freshId
  {
    body.artifactId.GetOr(freshId)
  }

  /** The caller's `systemPrompt` when supplied (even an empty one), else the default
      for the artifact type. */
  function SystemPrompt(body: GenerateBody): (p: string)
    ensures body.systemPrompt.Some? ==> p == body.systemPrompt.value
    ensures body.systemPrompt.None? ==> p == DefaultSystemPrompt(body.artifactType)
  {
    body.systemPrompt.GetOr(DefaultSystemPrompt(body.artifactType))
  }

  datatype Header = Header(name: string, value: string)

  /** The value of the first header called `name`, or `None` when no header has it. */
  function HeaderValue(headers: seq<Header>, name: string): (v: Option<string>)
    ensures v.None? <==> forall k :: 0 <= k < |headers| ==> headers[k].name != name
    ensures v.Some? ==>
              exists k :: 0 <= k < |headers| && headers[k] == Header(name, v.value) &&
                          forall j :: 0 <= j < k ==> headers[j].name != name
  {
    if headers == [] then None
    else if headers[0].name == name then Some(headers[0].value)
    else HeaderValue(headers[1..], name)
  }

  /** What the handler does: the upstream call it makes and the headers it answers
      with; the body is the relayed stream (`RelayedText`). */
  datatype GenerateResponse = GenerateResponse(upstream: CompletionRequest, headers: seq<Header>)

  /** The handler; `freshId` is the value `crypto.randomUUID()` gives when the body has
      no `artifactId`. */
  function Post(body: GenerateBody, freshId: string): (r: GenerateResponse)
    ensures r.upstream.model == ArtifactModel && r.upstream.stream
    ensures r.upstream.messages == [ChatMessage(System, SystemPrompt(body)), ChatMessage(User, body.prompt)]
    ensures DecodeEnvelope(r.upstream.metadata) == Some(Envelope(body.artifactType, ArtifactId(body, freshId)))
    ensures HeaderValue(r.headers, "X-Artifact-Id") == Some(ArtifactId(body, freshId))
    ensures HeaderValue(r.headers, "Content-Type") == Some("text/event-stream")
  {
    var id := ArtifactId(body, freshId);
    var messages := [ChatMessage(System, SystemPrompt(body)), ChatMessage(User, body.prompt)];
    GenerateResponse(
      CompletionRequest(ArtifactModel, messages, true, EncodeEnvelope(Envelope(body.artifactType, id))),
      ResponseHeaders(id))
  }

  /** The streaming response's headers, in the order the handler lists them: each of
      the four names finds its own value. */
  function ResponseHeaders(id: string): (hs: seq<Header>)
    ensures HeaderValue(hs, "Content-Type") == Some("text/event-stream")
    ensures HeaderValue(hs, "Cache-Control") == Some("no-cache, no-transform")
    ensures HeaderValue(hs, "Connection") == Some("keep-alive")
    ensures HeaderValue(hs, "X-Artifact-Id") == Some(id)
  {
    var hs := [ Header("Content-Type", "text/event-stream"),
                Header("Cache-Control", "no-cache, no-transform"),
                Header("Connection", "keep-alive"),
                Header("X-Artifact-Id", id) ];
    assert "Cache-Control"[1] != "Content-Type"[1];
    assert "Connection"[1] != "Cache-Control"[1] && "Connection"[3] != "Content-Type"[3];
    assert "X-Artifact-Id"[0] != "Content-Type"[0];
    assert hs[1..][1..] == hs[2..] && hs[2..][1..] == hs[3..];
    assert HeaderValue(hs, "Connection") == HeaderValue(hs[2..], "Connection");
    assert HeaderValue(hs, "X-Artifact-Id") == HeaderValue(hs[3..], "X-Artifact-Id");
    hs
  }

  /** One streamed upstream chunk, as far as the relay reads it. */
  datatype Delta = Delta(content: Option<string>)
  datatype ChunkChoice = ChunkChoice(delta: Option<Delta>)
  datatype CompletionChunk = CompletionChunk(choices: seq<ChunkChoice>)

  /** `chunk.choices[0]?.delta?.content ?? ""`. */
  function DeltaText(chunk: CompletionChunk): (s: string)
    ensures (chunk.choices != [] && chunk.choices[0].delta.Some? &&
             chunk.choices[0].delta.value.content.Some?) ==> s == chunk.choices[0].delta.value.content.value
    ensures (chunk.choices == [] || chunk.choices[0].delta.None? ||
             chunk.choices[0].delta.value.content.None?) ==> s == ""
  {
    if chunk.choices == [] then ""
    else match chunk.choices[0].delta
      case None => ""
      case Some(d) => d.content.GetOr("")
  }

  /** The text of each upstream chunk, in upstream order. */
  function Deltas(chunks: seq<CompletionChunk>): seq<string>
  {
    seq(|chunks|, k requires 0 <= k < |chunks| => DeltaText(chunks[k]))
  }

  /** The response body read to its end: each chunk's text, in upstream order. What the
      caller has read after any number of upstream chunks is a prefix of the whole body. */
  function RelayedText(chunks: seq<CompletionChunk>): (body: string)
    ensures forall k :: 0 <= k <= |chunks| ==> Text.Concat(Deltas(chunks[..k])) <= body
  {
    RelayedPrefixes(chunks);
    Text.Concat(Deltas(chunks))
  }

  lemma RelayedPrefixes(chunks: seq<CompletionChunk>)
    ensures forall k :: 0 <= k <= |chunks| ==> Text.Concat(Deltas(chunks[..k])) <= Text.Concat(Deltas(chunks))
  {
    forall k | 0 <= k <= |chunks|
      ensures Text.Concat(Deltas(chunks[..k])) <= Text.Concat(Deltas(chunks))
    {
      assert Deltas(chunks[..k]) == Deltas(chunks)[..k];
      Text.ConcatPrefix(Deltas(chunks), k);
    }
  }

  /** The relay neither reorders, drops nor duplicates: relaying two runs of chunks one
      after the other gives the two texts one after the other. */
  lemma RelayedTextAppend(a: seq<CompletionChunk>, b: seq<CompletionChunk>)
    ensures RelayedText(a + b) == RelayedText(a) + RelayedText(b)
  {
    assert Deltas(a + b) == Deltas(a) + Deltas(b);
    Text.ConcatAppend(Deltas(a), Deltas(b));
  }

  /** Each new chunk extends the relayed text by exactly its own text; a chunk without
      content extends it by nothing. */
  lemma RelayedTextSnoc(chunks: seq<CompletionChunk>, c: CompletionChunk)
    ensures RelayedText(chunks + [c]) == RelayedText(chunks) + DeltaText(c)
  {
    assert Deltas(chunks + [c]) == Deltas(chunks) + [DeltaText(c)];
    Text.ConcatSnoc(Deltas(chunks), DeltaText(c));
  }
}
