/** The artifact page: a prompt generates a report or a slide deck, streamed into
    `c1Response`; an edit instruction replaces the artifact wholesale; an exported PDF
    is named after the artifact's title. */
module Artifacts {
  import opened Wrappers
  import opened ArtifactApi
  import GenerateRoute
  import EditRoute
  import Text
  import Uuid

  // ---------------------------------------------------------------------------------
  // Export file name

  /** Does `s` end in ".pdf", matched without regard to ASCII case (`/\.pdf$/i`)? */
  predicate HasPdfSuffix(s: string)
  {
    |s| >= 4 && s[|s| - 4] == '.' &&
    s[|s| - 3] in "pP" && s[|s| - 2] in "dD" && s[|s| - 1] in "fF"
  }

  /** The download name for an exported PDF: the title, or "artifact" when it is empty,
      with one trailing ".pdf" in any case removed and a lower-case ".pdf" appended. */
  function ExportFilename(title: string): (name: string)
    ensures |name| >= 4 && name[|name| - 4..] == ".pdf"
    ensures title == "" ==> name == "artifact.pdf"
  {
    var base := if title == "" then "artifact" else title;
    var stem := if HasPdfSuffix(base) then base[..|base| - 4] else base;
    stem + ".pdf"
  }

  /** A title without the extension keeps all its characters and gains ".pdf". */
  lemma ExportFilenamePlain(title: string)
    requires title != "" && !HasPdfSuffix(title)
    ensures ExportFilename(title) == title + ".pdf"
  {
  }

  /** A title ending in ".pdf" in any case keeps its stem, and only that one extension
      is replaced: "a.pdf.PDF" becomes "a.pdf.pdf". */
  lemma ExportFilenameReplacesExtension(stem: string, ext: string)
    requires |ext| == 4 && ext[0] == '.' && ext[1] in "pP" && ext[2] in "dD" && ext[3] in "fF"
    ensures ExportFilename(stem + ext) == stem + ".pdf"
  {
    var t := stem + ext;
    assert t[|t| - 4..] == ext;
    assert t[|t| - 4] == ext[0] && t[|t| - 3] == ext[1] && t[|t| - 2] == ext[2] && t[|t| - 1] == ext[3];
    assert t[..|t| - 4] == stem;
  }

  /** Naming an already exported file again changes nothing. */
  lemma ExportFilenameIdempotent(title: string)
    ensures ExportFilename(ExportFilename(title)) == ExportFilename(title)
  {
    var name := ExportFilename(title);
    var stem := name[..|name| - 4];
    assert name == stem + ".pdf";
    ExportFilenameReplacesExtension(stem, ".pdf");
  }

  /** A title that is only the extension leaves an empty stem: the file is named ".pdf",
      not "artifact.pdf". */
  lemma ExportFilenameBareExtension()
    ensures ExportFilename(".PDF") == ".pdf"
  {
    ExportFilenameReplacesExtension("", ".PDF");
  }

  // ---------------------------------------------------------------------------------
  // Replies

  /** What `fetch("/api/artifact/generate")` yields: a thrown request, a status that is
      not ok, a response without a body, or the decoded chunks read from the body, up to
      its end or to the point where reading it failed. */
  datatype StreamReply = FetchFailed | HttpError | NoBody | Stream(chunks: seq<string>)

  /** The chunks the read loop appends. */
  function ReadChunks(reply: StreamReply): seq<string>
  {
    if reply.Stream? then reply.chunks else []
  }

  /** What `fetch("/api/artifact/edit")` yields: a thrown request, or a status and the
      body text. */
  datatype EditReply = EditFetchFailed | EditResponse(ok: bool, body: string)

  /** The new content an edit reply carries: an ok status and a `{content}` body. */
  function EditedContent(reply: EditReply): (r: Option<string>)
    ensures r.Some? ==> reply.EditResponse? && reply.ok
  {
    if reply.EditResponse? && reply.ok then EditRoute.ReadContentBody(reply.body) else None
  }

  /** What the edit route answers is what the page installs. */
  lemma EditedContentOfRoute(c: EditRoute.Completion)
    ensures EditedContent(EditResponse(true, EditRoute.Respond(c))) == Some(EditRoute.ResultContent(c))
  {
  }

  // ---------------------------------------------------------------------------------
  // The response as it grows

  /** The successive values of `c1Response` while generating: cleared first, then the
      concatenation of the chunks read so far after each chunk. */
  function PartialResponses(chunks: seq<string>): (shown: seq<string>)
    ensures |shown| == |chunks| + 1
  {
    if chunks == [] then [""]
    else PartialResponses(chunks[..|chunks| - 1]) + [Text.Concat(chunks)]
  }

  /** The k-th value shown is the concatenation of the first k chunks; in particular the
      first is empty and the last is the whole response. */
  lemma {:induction false} PartialResponsesAt(chunks: seq<string>, k: nat)
    requires k <= |chunks|
    ensures PartialResponses(chunks)[k] == Text.Concat(chunks[..k])
    decreases |chunks|
  {
    if k < |chunks| {
      var init := chunks[..|chunks| - 1];
      assert init[..k] == chunks[..k];
      PartialResponsesAt(init, k);
    } else {
      assert chunks[..k] == chunks;
    }
  }

  /** What the page shows only ever grows: each value is a prefix of every later one,
      and so of the final response. */
  lemma PartialResponsesGrow(chunks: seq<string>, k: nat, l: nat)
    requires k <= l <= |chunks|
    ensures PartialResponses(chunks)[k] <= PartialResponses(chunks)[l]
  {
    Text.ConcatPrefixes(chunks, k, l);
    PartialResponsesAt(chunks, k);
    PartialResponsesAt(chunks, l);
  }

  /** Placeholder text for the prompt box. */
  const SlidesPlaceholder: string :=
    "Describe the presentation you want to create... e.g., 'Create a presentation about the benefits of renewable energy'"
  const ReportPlaceholder: string :=
    "Describe the report you want to create... e.g., 'Create a report analyzing Q4 market trends'"

  /** The prompt box's placeholder: the slides text for slides, the report text for a
      report, so the placeholder names the chosen type. */
  function PromptPlaceholder(t: ArtifactType): (p: string)
    ensures p == SlidesPlaceholder <==> t == Slides
    ensures p == ReportPlaceholder <==> t == Report
  {
    assert |SlidesPlaceholder| != |ReportPlaceholder|;
    match t
    case Slides => SlidesPlaceholder
    case Report => ReportPlaceholder
  }

  // ---------------------------------------------------------------------------------
  // The page

  class ArtifactsPage {
    var c1Response: string
    var isLoading: bool
    var isEditing: bool
    var artifactType: ArtifactType
    var prompt: string
    var editPrompt: string
    var artifactId: Option<string>
    /** Every value given to `setC1Response`, in order. */
    ghost var shown: seq<string>

    /** The first render: empty, idle, and set to make slides. */
    constructor ()
      ensures c1Response == "" && !isLoading && !isEditing && artifactType == Slides
      ensures prompt == "" && editPrompt == "" && artifactId.None? && shown == []
    {
      c1Response, isLoading, isEditing := "", false, false;
      artifactType, prompt, editPrompt, artifactId := Slides, "", "", None;
      shown := [];
    }

    /** The report / slides toggle. */
    method ChooseType(t: ArtifactType)
      modifies this`artifactType
      ensures artifactType == t
    {
      artifactType := t;
    }

    /** `generateArtifact`: unless the prompt trims to nothing, clears the artifact, gives
        it a fresh id, posts the trimmed prompt with the current type and that id, and
        appends each chunk read to `c1Response`. Whatever the reply, loading ends; a
        failed request leaves the artifact empty and a broken stream leaves what was read. */
    method GenerateArtifact(ids: Uuid.UuidSource, reply: StreamReply) returns (request: Option<GenerateRoute.GenerateBody>)
      requires ids.Valid()
      modifies this`isLoading, this`c1Response, this`artifactId, this`shown, ids
      ensures ids.Valid()
      ensures Text.AllTrimmable(prompt) ==> request.None? && unchanged(this) && unchanged(ids)
      ensures !Text.AllTrimmable(prompt) ==>
        artifactId.Some? && artifactId.value != "" && artifactId.value !in old(ids.issued) &&
        ids.issued == old(ids.issued) + {artifactId.value} &&
        request == Some(GenerateRoute.GenerateBody(Text.Trim(prompt), artifactType, None, artifactId))
      ensures !Text.AllTrimmable(prompt) ==>
        !isLoading && c1Response == Text.Concat(ReadChunks(reply)) &&
        shown == old(shown) + PartialResponses(ReadChunks(reply))
    {
      var text := Text.Trim(prompt);
      if text == [] {
        return None;
      }
      isLoading := true;
      var id := ids.RandomUuid();
      artifactId := Some(id);
      request := Some(GenerateRoute.GenerateBody(text, artifactType, None, Some(id)));
      ReadResponse(ReadChunks(reply));
      isLoading := false;
    }

    /** The read loop of `generateArtifact`: the artifact is cleared, then each chunk is
        appended and the concatenation so far shown. */
    method ReadResponse(chunks: seq<string>)
      modifies this`c1Response, this`shown
      ensures c1Response == Text.Concat(chunks)
      ensures shown == old(shown) + PartialResponses(chunks)
    {
      c1Response := "";
      shown := shown + [""];
      var accumulated := "";
      var i := 0;
      while i < |chunks|
        invariant 0 <= i <= |chunks|
        invariant accumulated == Text.Concat(chunks[..i]) && c1Response == accumulated
        invariant shown == old(shown) + PartialResponses(chunks[..i])
      {
        Text.ConcatSnoc(chunks[..i], chunks[i]);
        assert chunks[..i + 1] == chunks[..i] + [chunks[i]];
        assert chunks[..i + 1][..i] == chunks[..i];
        accumulated := accumulated + chunks[i];
        c1Response := accumulated;
        shown := shown + [accumulated];
        i := i + 1;
      }
      assert chunks[..i] == chunks;
    }

    /** `applyEdit`: unless the trimmed instruction is empty, there is no artifact or it
        has no id, posts the artifact and the trimmed instruction under the artifact's
        type and id. An ok reply replaces the artifact with the returned content and
        clears the instruction; any failure leaves both as they were. Editing ends
        whatever the reply. */
    method ApplyEdit(reply: EditReply) returns (request: Option<EditRoute.EditBody>)
      modifies this`isEditing, this`c1Response, this`editPrompt, this`shown
      ensures (Text.AllTrimmable(old(editPrompt)) || old(c1Response) == "" || artifactId.None? || artifactId.value == "") ==>
        request.None? && unchanged(this)
      ensures !(Text.AllTrimmable(old(editPrompt)) || old(c1Response) == "" || artifactId.None? || artifactId.value == "") ==>
        request == Some(EditRoute.EditBody(old(c1Response), Text.Trim(old(editPrompt)), artifactType, artifactId.value)) &&
        !isEditing &&
        (EditedContent(reply).Some? ==>
          c1Response == EditedContent(reply).value && editPrompt == "" && shown == old(shown) + [c1Response]) &&
        (EditedContent(reply).None? ==>
          c1Response == old(c1Response) && editPrompt == old(editPrompt) && shown == old(shown))
    {
      var instruction := Text.Trim(editPrompt);
      if instruction == [] || c1Response == "" || artifactId.None? || artifactId.value == "" {
        return None;
      }
      isEditing := true;
      request := Some(EditRoute.EditBody(c1Response, instruction, artifactType, artifactId.value));
      match EditedContent(reply) {
        case Some(content) =>
          c1Response := content;
          shown := shown + [content];
          editPrompt := "";
        case None =>
      }
      isEditing := false;
    }
  }
}
