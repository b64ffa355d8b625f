/** `POST /api/artifact/edit`: one non-streaming upstream call that sends the current
    artifact and the edit instruction, answering with the new content as `{content}`. */
module EditRoute {
  import opened Wrappers
  import opened ArtifactApi
  import Json

  /** The JSON body the route reads. */
  datatype EditBody = EditBody(
    existingContent: string,
    editPrompt: string,
    artifactType: ArtifactType,
    artifactId: string)

  /** The upstream call: the artifact as the assistant's turn, then the instruction as
      the user's, correlated by the artifact's type and id. */
  function Post(body: EditBody): (req: CompletionRequest)
    ensures req.model == ArtifactModel && !req.stream
    ensures req.messages == [ChatMessage(Assistant, body.existingContent), ChatMessage(User, body.editPrompt)]
    ensures DecodeEnvelope(req.metadata) == Some(Envelope(body.artifactType, body.artifactId))
  {
    var e := Envelope(body.artifactType, body.artifactId);
    CompletionRequest(
      ArtifactModel,
      [ChatMessage(Assistant, body.existingContent), ChatMessage(User, body.editPrompt)],
      false,
      EncodeEnvelope(e))
  }

  /** The upstream's non-streaming answer, as far as the route reads it. */
  datatype ReplyMessage = ReplyMessage(content: Option<string>)
  datatype ReplyChoice = ReplyChoice(message: Option<ReplyMessage>)
  datatype Completion = Completion(choices: seq<ReplyChoice>)

  /** `completion.choices[0]?.message?.content ?? ""`. */
  function ResultContent(c: Completion): (s: string)
    ensures (c.choices != [] && c.choices[0].message.Some? &&
             c.choices[0].message.value.content.Some?) ==> s == c.choices[0].message.value.content.value
    ensures (c.choices == [] || c.choices[0].message.None? ||
             c.choices[0].message.value.content.None?) ==> s == ""
  {
    if c.choices == [] then ""
    else match c.choices[0].message
      case None => ""
      case Some(m) => m.content.GetOr("")
  }

  const ContentHead: string := "{\"content\":"

  /** `NextResponse.json({content})`: the body text, which reads back as its content. */
  function ContentBody(content: string): (t: string)
    ensures ReadContentBody(t) == Some(content)
  {
    assert Json.Expect(ContentHead, ContentHead + (Json.Quote(content) + "}")) == Some(Json.Quote(content) + "}") by {
      Json.ExpectLiteral(ContentHead, Json.Quote(content) + "}");
    }
    assert Json.ReadString(Json.Quote(content) + "}") == Some((content, "}")) by {
      Json.QuoteRoundTrip(content, "}");
    }
    ContentHead + (Json.Quote(content) + "}")
  }

  /** Reads a body in the form `ContentBody` writes: an object whose only field is
      `content`. */
  function ReadContentBody(t: string): (r: Option<string>)
    ensures r.Some? ==> ContentHead <= t
  {
    match Json.Expect(ContentHead, t)
    case None => None
    case Some(t1) =>
      match Json.ReadString(t1)
      case Some((content, t2)) => if t2 == "}" then Some(content) else None
      case None => None
  }

  /** The handler's answer to the upstream completion: a `{content}` object holding the
      first choice's text. */
  function Respond(c: Completion): (body: string)
    ensures ReadContentBody(body) == Some(ResultContent(c))
  {
    ContentBody(ResultContent(c))
  }
}
