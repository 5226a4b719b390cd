/** The resume service backed by the database: uploading a resume (store, extract, parse) and
    creating a version of a resume customised for a job description. */
module ResumeService {
  import opened Wrappers
  import opened JsonValue
  import opened Errors
  import opened Paths
  import opened Domain
  import opened FileExtractors
  import opened Parsing
  import opened Storage
  import opened Persistence

  /** `build_resume_customization_prompt` and `build_cover_letter_prompt`: templates around the
      resume's sections and the job description. */
  type SectionsPromptBuilder = (seq<map<string, Json>>, string) -> string

  const ParseWarning: string := "Failed to parse resume. Parsed data is not available."
  const NoSession: string := "Database session not available"
  const NoLlm: string := "LLM client not available"
  const NoSections: string := "Resume has no sections to customize"
  const InvalidCustomization: string := "Invalid response from LLM for resume customization"
  const VersionFailure: string := "Internal server error during resume version creation"

  function NotFound(resumeId: string): string {
    "Resume with id " + resumeId + " not found"
  }

  /** The dict a stored section is shown to the LLM as. */
  function SectionDict(s: SectionRow): (d: map<string, Json>)
    ensures d.Keys == {"title", "content", "raw_content"}
    ensures d["title"] == s.title && d["content"] == s.content && d["raw_content"] == s.rawContent
  {
    map["title" := s.title, "content" := s.content, "raw_content" := s.rawContent]
  }

  function SectionDicts(sections: seq<SectionRow>): (r: seq<map<string, Json>>)
    ensures |r| == |sections|
    ensures forall k :: 0 <= k < |sections| ==> r[k] == SectionDict(sections[k])
  {
    seq(|sections|, k requires 0 <= k < |sections| => SectionDict(sections[k]))
  }

  /** Whether the customisation reply can be used: a dict with a "sections" key. */
  predicate UsableCustomization(reply: Json) {
    reply.JObj? && "sections" in reply.fields
  }

  /** The customised section items: the reply's "sections" value when it is a list, [] when it
      is anything else. */
  function CustomItems(reply: Json): (r: seq<Json>)
    requires UsableCustomization(reply)
    ensures reply.fields["sections"].JArr? ==> r == reply.fields["sections"].items
    ensures !reply.fields["sections"].JArr? ==> r == []
  {
    var custom := GetOr(reply.fields, "sections", JArr([]));
    if custom.JArr? then custom.items else []
  }

  /** The cover letter taken from its reply: the "cover_letter" value of a dict reply that has
      one; None when the call failed or the reply has no such key. */
  function CoverLetterOf(reply: Result<Json, Exception>): (r: Json)
    ensures (reply.Ok? && reply.value.JObj? && "cover_letter" in reply.value.fields) ==>
      r == reply.value.fields["cover_letter"]
    ensures !(reply.Ok? && reply.value.JObj? && "cover_letter" in reply.value.fields) ==> r == JNull
  {
    match reply
    case Ok(JObj(fields)) => if "cover_letter" in fields then fields["cover_letter"] else JNull
    case _ => JNull
  }

  /** `ResumeService` of the database-backed feature. A missing database session is a null
      repository. */
  class ResumeService {
    const ingestion: IngestionService
    const parserLlm: LlmCall
    const parserPrompt: PromptBuilder
    const repo: ResumeRepository?
    const llm: Option<LlmCall>
    const customizationPrompt: SectionsPromptBuilder
    const coverLetterPrompt: SectionsPromptBuilder

    constructor(ingestion: IngestionService, parserLlm: LlmCall, parserPrompt: PromptBuilder,
                repo: ResumeRepository?, llm: Option<LlmCall>,
                customizationPrompt: SectionsPromptBuilder, coverLetterPrompt: SectionsPromptBuilder)
      ensures this.ingestion == ingestion && this.parserLlm == parserLlm && this.parserPrompt == parserPrompt
      ensures this.repo == repo && this.llm == llm
      ensures this.customizationPrompt == customizationPrompt && this.coverLetterPrompt == coverLetterPrompt
    {
      this.ingestion := ingestion;
      this.parserLlm := parserLlm;
      this.parserPrompt := parserPrompt;
      this.repo := repo;
      this.llm := llm;
      this.customizationPrompt := customizationPrompt;
      this.coverLetterPrompt := coverLetterPrompt;
    }

    /** What `create_base_resume_from_upload` does once the file is saved at `path`: an
        unsupported format becomes HTTP 400 and other extraction errors pass through, with no
        prompt sent; otherwise the resume is built, without parse data and with exactly one
        warning when parsing failed, with the parse result and no warning when it succeeded.
        The second component lists the prompts sent to the LLM. */
    function AfterSave(file: UploadFile, name: string, path: string, resumeId: string, now: int)
      : (out: (Result<(BaseResume, seq<string>), Exception>, seq<string>))
      ensures var ex := ingestion.ExtractText(file.data, name, file.contentType);
        && (ex.Err? && ex.error.UnsupportedFileFormatError? ==>
              out == (Err(HttpException(400, Message(ex.error))), []))
        && (ex.Err? && !ex.error.UnsupportedFileFormatError? ==> out == (Err(ex.error), []))
        && (ex.Ok? ==>
              var parsed := ParseText(ex.value, parserLlm, parserPrompt);
              && out.0.Ok? && out.1 == parsed.1
              && out.0.value.0.filename == name && out.0.value.0.filePath == path
              && out.0.value.0.contentType == OrDefault(file.contentType, "application/octet-stream")
              && out.0.value.0.id == resumeId && out.0.value.0.createdAt == now
              && (parsed.0.Ok? ==> out.0.value.0.parsedData == Some(parsed.0.value) && out.0.value.1 == [])
              && (parsed.0.Err? ==> out.0.value.0.parsedData == None && out.0.value.1 == [ParseWarning]))
    {
      match ingestion.ExtractText(file.data, name, file.contentType)
      case Err(e) =>
        if e.UnsupportedFileFormatError? then (Err(HttpException(400, Message(e))), [])
        else (Err(e), [])
      case Ok(rawText) =>
        var parsed := ParseText(rawText, parserLlm, parserPrompt);
        var parsedData := if parsed.0.Ok? then Some(parsed.0.value) else None;
        var warnings := if parsed.0.Ok? then [] else [ParseWarning];
        var resume := CreateBaseResume(resumeId, name, OrDefault(file.contentType, "application/octet-stream"),
                                       path, parsedData, now);
        (Ok((resume, warnings)), parsed.1)
    }

    /** `create_base_resume_from_upload`: the file is saved first under its on-disk name (the
        client's name, or "unknown"), and a failed save is raised before anything else happens;
        the rest is `AfterSave`. The resume is returned, not stored: only the disk changes. */
    method CreateBaseResumeFromUpload(file: UploadFile, resumeId: string, now: int, fileId: string,
                                      writeFailure: Option<Exception>)
      returns (r: Result<(BaseResume, seq<string>), Exception>, prompts: seq<string>)
      modifies ingestion.disk
      ensures writeFailure.Some? ==>
        r == Err(writeFailure.value) && prompts == [] && ingestion.disk.files == old(ingestion.disk.files)
      ensures writeFailure.None? ==>
        var name := OrDefault(file.filename, "unknown");
        var path := JoinPath(ingestion.baseDir, DiskName(fileId, name));
        && ingestion.disk.files == old(ingestion.disk.files)[path := file.data]
        && (r, prompts) == AfterSave(file, name, path, resumeId, now)
    {
      var warnings: seq<string> := [];
      var name := OrDefault(file.filename, "unknown");
      var saved := ingestion.SaveFile(file.data, name, fileId, writeFailure);
      if saved.Err? {
        return Err(saved.error), [];
      }
      var extracted := ingestion.ExtractText(file.data, name, file.contentType);
      if extracted.Err? {
        if extracted.error.UnsupportedFileFormatError? {
          assert AfterSave(file, name, saved.value, resumeId, now) == (Err(HttpException(400, Message(extracted.error))), []);
          return Err(HttpException(400, Message(extracted.error))), [];
        }
        assert AfterSave(file, name, saved.value, resumeId, now) == (Err(extracted.error), []);
        return Err(extracted.error), [];
      }
      var parsed := ParseText(extracted.value, parserLlm, parserPrompt);
      prompts := parsed.1;
      var parsedData: Option<ParsedResumeData> := None;
      if parsed.0.Ok? {
        parsedData := Some(parsed.0.value);
      } else {
        warnings := warnings + [ParseWarning];
      }
      var resume := CreateBaseResume(resumeId, name, OrDefault(file.contentType, "application/octet-stream"),
                                     saved.value, parsedData, now);
      r := Ok((resume, warnings));
      assert parsedData == (if parsed.0.Ok? then Some(parsed.0.value) else None);
      assert warnings == (if parsed.0.Ok? then [] else [ParseWarning]);
      assert extracted == ingestion.ExtractText(file.data, name, file.contentType);
      assert AfterSave(file, name, saved.value, resumeId, now).1 == prompts;
      assert AfterSave(file, name, saved.value, resumeId, now).0 == r;
    }

    /** `create_custom_version`. The checks run in order before any LLM call: a database
        session (500), an LLM client (500), the resume (404) and its sections (400). The
        customisation reply must be a dict with "sections" (500 otherwise); the cover letter is
        best effort and never aborts. Any other failure becomes HTTP 500. `prompts` lists the
        prompts sent to the LLM, in order. */
    method CreateCustomVersion(resumeId: string, jobDescription: string, versionId: string)
      returns (r: Result<VersionRow, Exception>, prompts: seq<string>)
      requires repo != null ==> repo.Valid()
      modifies repo
      ensures repo == null ==> r == Err(HttpException(500, NoSession)) && prompts == []
      ensures repo != null && llm.None? ==> r == Err(HttpException(500, NoLlm)) && prompts == []
      ensures repo != null && llm.Some? && old(repo.GetById(resumeId)).None? ==>
        r == Err(HttpException(404, NotFound(resumeId))) && prompts == []
      ensures repo != null && llm.Some? && old(repo.GetById(resumeId)).Some? && old(repo.GetById(resumeId)).value.sections == [] ==>
        r == Err(HttpException(400, NoSections)) && prompts == []
      ensures repo != null && llm.Some? && old(repo.GetById(resumeId)).Some? && old(repo.GetById(resumeId)).value.sections != [] ==>
        var dicts := SectionDicts(old(repo.GetById(resumeId)).value.sections);
        var first := customizationPrompt(dicts, jobDescription);
        var reply := llm.value(first);
        && 1 <= |prompts| <= 2 && prompts[0] == first
        && (reply.Err? ==>
              (prompts == [first] &&
               r == Err(if reply.error.HttpException? then reply.error else HttpException(500, VersionFailure))))
        && (reply.Ok? && !UsableCustomization(reply.value) ==>
              prompts == [first] && r == Err(HttpException(500, InvalidCustomization)))
        && (reply.Ok? && UsableCustomization(reply.value) ==>
              var second := coverLetterPrompt(dicts, jobDescription);
              var items := CustomItems(reply.value);
              && prompts == [first, second]
              && (r.Ok? <==> forall k :: 0 <= k < |items| ==> items[k].JObj?)
              && (r.Ok? ==> r.value.coverLetter == CoverLetterOf(llm.value(second))
                            && r.value.id == versionId
                            && r.value.resumeId == resumeId && r.value.jobDescription == jobDescription
                            && |r.value.sections| == |items|
                            && forall k :: 0 <= k < |items| ==>
                                 r.value.sections[k] == VersionSectionRow(items[k].fields, k))
              && (r.Err? ==> r.error == HttpException(500, VersionFailure)))
      ensures repo != null && r.Ok? ==> repo.versions == old(repo.versions) + [r.value]
      ensures repo != null && r.Err? ==> repo.versions == old(repo.versions)
      ensures repo != null ==> repo.resumes == old(repo.resumes)
    {
      prompts := [];
      if repo == null {
        return Err(HttpException(500, NoSession)), [];
      }
      if llm.None? {
        return Err(HttpException(500, NoLlm)), [];
      }
      var client := llm.value;
      var resume := repo.GetById(resumeId);
      if resume.None? {
        return Err(HttpException(404, NotFound(resumeId))), [];
      }
      var sections := resume.value.sections;
      if sections == [] {
        return Err(HttpException(400, NoSections)), [];
      }
      var resumeSections: seq<map<string, Json>> := [];
      var i := 0;
      while i < |sections|
        invariant 0 <= i <= |sections|
        invariant resumeSections == SectionDicts(sections[..i])
      {
        resumeSections := resumeSections + [SectionDict(sections[i])];
        i := i + 1;
      }
      assert sections[..i] == sections;
      var prompt := customizationPrompt(resumeSections, jobDescription);
      prompts := [prompt];
      var reply := client(prompt);
      if reply.Err? {
        if reply.error.HttpException? {
          return Err(reply.error), prompts;
        }
        return Err(HttpException(500, VersionFailure)), prompts;
      }
      var response := reply.value;
      if !response.JObj? || "sections" !in response.fields {
        return Err(HttpException(500, InvalidCustomization)), prompts;
      }
      var customSections := GetOr(response.fields, "sections", JArr([]));
      var items := if customSections.JArr? then customSections.items else [];
      assert items == CustomItems(response);
      var coverLetter := JNull;
      var coverPrompt := coverLetterPrompt(resumeSections, jobDescription);
      prompts := prompts + [coverPrompt];
      var coverReply := client(coverPrompt);
      if coverReply.Ok? && coverReply.value.JObj? && "cover_letter" in coverReply.value.fields {
        coverLetter := coverReply.value.fields["cover_letter"];
      }
      var version := repo.CreateVersion(resumeId, jobDescription, items, coverLetter, versionId);
      if version.Err? {
        assert !(forall k :: 0 <= k < |items| ==> items[k].JObj?);
        return Err(HttpException(500, VersionFailure)), prompts;
      }
      r := Ok(version.value);
    }
  }
}
