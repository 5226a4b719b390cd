/** The record shapes of a parsed resume: sections, parse results and uploaded resumes. */
module Domain {
  import opened Wrappers
  import opened JsonValue

  /** One section of a resume. The text fields hold whatever the LLM reply carried under
      the matching key (JNull for Python's None); every field defaults to None. */
  datatype Section = Section(
    title: Json := JNull,
    content: Json := JNull,
    rawContent: Json := JNull,
    order: Option<int> := None)

  /** The result of parsing: the full text, its sections and free-form metadata. */
  datatype ParsedResumeData = ParsedResumeData(
    rawText: string,
    sections: seq<Section> := [],
    meta: map<string, Json> := map[])

  /** An uploaded resume. The id and the creation time come from `uuid4` and `utcnow`,
      which the model takes as parameters. */
  datatype BaseResume = BaseResume(
    id: string,
    filename: string,
    contentType: string,
    filePath: string,
    parsedData: Option<ParsedResumeData> := None,
    createdAt: int)

  /** `BaseResume.create`: a new resume under the id drawn for it, with the caller's file data
      and parse result unchanged. */
  function CreateBaseResume(id: string, filename: string, contentType: string, filePath: string,
                            parsedData: Option<ParsedResumeData>, now: int): (r: BaseResume)
    ensures r.id == id && r.createdAt == now
    ensures r.filename == filename && r.contentType == contentType && r.filePath == filePath
    ensures r.parsedData == parsedData
  {
    BaseResume(id, filename, contentType, filePath, parsedData, now)
  }
}
