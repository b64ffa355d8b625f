/** What the two artifact routes send to the upstream completion API: the artifact
    kinds, the chat messages, the completion request and the `metadata.thesys`
    envelope that lets the upstream correlate an edit with the artifact it generated. */
module ArtifactApi {
  import opened Wrappers
  import Json

  datatype ArtifactType = Report | Slides

  /** The JSON spelling of an artifact type. */
  function TypeName(t: ArtifactType): string
  {
    match t
    case Report => "report"
    case Slides => "slides"
  }

  function ParseTypeName(s: string): (r: Option<ArtifactType>)
    ensures r.Some? ==> TypeName(r.value) == s
  {
    if s == "report" then Some(Report)
    else if s == "slides" then Some(Slides)
    else None
  }

  /** The model both routes ask the upstream artifact API for. */
  const ArtifactModel: string := "c1/artifact/v-20251030"

  datatype Role = System | User | Assistant

  datatype ChatMessage = ChatMessage(role: Role, content: string)

  /** A `chat.completions.create` call. `stream` false stands for the field being absent;
      `metadata` is the string sent as `metadata.thesys`. */
  datatype CompletionRequest = CompletionRequest(
    model: string,
    messages: seq<ChatMessage>,
    stream: bool,
    metadata: string)

  /** The correlation record `{c1_artifact_type, id}`. */
  datatype Envelope = Envelope(artifactType: ArtifactType, id: string)

  const EnvelopeHead: string := "{\"c1_artifact_type\":"
  const EnvelopeIdKey: string := ",\"id\":"

  /** `JSON.stringify({c1_artifact_type, id})`: the envelope carries its type and id
      through to the upstream unchanged, so reading it back gives the same envelope. */
  function EncodeEnvelope(e: Envelope): (t: string)
    ensures DecodeEnvelope(t) == Some(e)
  {
    var name := TypeName(e.artifactType);
    var tail := EnvelopeIdKey + (Json.Quote(e.id) + "}");
    var t := EnvelopeHead + (Json.Quote(name) + tail);
    assert Json.Expect(EnvelopeHead, t) == Some(Json.Quote(name) + tail) by {
      Json.ExpectLiteral(EnvelopeHead, Json.Quote(name) + tail);
    }
    assert Json.ReadString(Json.Quote(name) + tail) == Some((name, tail)) by {
      Json.QuoteRoundTrip(name, tail);
    }
    assert Json.Expect(EnvelopeIdKey, tail) == Some(Json.Quote(e.id) + "}") by {
      Json.ExpectLiteral(EnvelopeIdKey, Json.Quote(e.id) + "}");
    }
    assert Json.ReadString(Json.Quote(e.id) + "}") == Some((e.id, "}")) by {
      Json.QuoteRoundTrip(e.id, "}");
    }
    assert ParseTypeName(name) == Some(e.artifactType);
    t
  }

  /** Reads an envelope in the form `EncodeEnvelope` writes. */
  function DecodeEnvelope(t: string): (r: Option<Envelope>)
    ensures r.Some? ==> EnvelopeHead <= t
  {
    match Json.Expect(EnvelopeHead, t)
    case None => None
    case Some(t1) =>
      match Json.ReadString(t1)
      case None => None
      case Some((name, t2)) =>
        match (ParseTypeName(name), Json.Expect(EnvelopeIdKey, t2))
        case (Some(ty), Some(t3)) =>
          (match Json.ReadString(t3)
           case Some((id, t4)) => if t4 == "}" then Some(Envelope(ty, id)) else None
           case None => None)
        case _ => None
  }
}
