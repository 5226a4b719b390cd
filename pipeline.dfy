/** The resume parsing pipeline: extract the text of an uploaded file, hand it to the LLM resume
    parser and collect the sections of its reply. */
module ResumePipeline {
  import opened Wrappers
  import opened JsonValue
  import opened Errors
  import opened Domain
  import opened FileExtractors
  import opened Parsing
  import opened Paths

  /** A pipeline: the document readers behind the extractor factory and the LLM resume parser,
      which maps the resume text to the LLM's decoded JSON reply. */
  datatype Pipeline = Pipeline(readPdf: PdfReader, readDocx: DocxReader, llmParser: LlmCall)

  const MissingParser: string := "llm_parser must be provided to ResumeParsingPipeline"

  /** `ResumeParsingPipeline.__init__`: the LLM parser is required. */
  function NewPipeline(readPdf: PdfReader, readDocx: DocxReader, llmParser: Option<LlmCall>): (r: Result<Pipeline, Exception>)
    ensures r.Ok? <==> llmParser.Some?
    ensures r.Err? ==> r.error == ValueError(MissingParser)
    ensures r.Ok? ==> r.value.llmParser == llmParser.value && r.value.readPdf == readPdf && r.value.readDocx == readDocx
  {
    match llmParser
    case None => Err(ValueError(MissingParser))
    case Some(parser) => Ok(Pipeline(readPdf, readDocx, parser))
  }

  /** What `ResumeParsingPipeline.parse` computes. Extraction comes first and its failure, an
      unsupported format included, ends the call before the parser is used; the parser receives
      exactly the extracted text; the reply is mapped to sections as
      `map_llm_response_to_parsed_data` does. The second component lists the texts handed to
      the parser. */
  function ParseResult(p: Pipeline, data: Bytes, filename: string, contentType: Option<string>)
    : (out: (Result<ParsedResumeData, Exception>, seq<string>))
    ensures var ex := Extract(data, filename, contentType, p.readPdf, p.readDocx);
      && (ex.Err? ==> out == (Err(ex.error), []))
      && (ex.Ok? ==> out.1 == [ex.value.rawText])
      && (ex.Ok? && p.llmParser(ex.value.rawText).Err? ==> out.0 == Err(p.llmParser(ex.value.rawText).error))
      && (ex.Ok? && p.llmParser(ex.value.rawText).Ok? && !p.llmParser(ex.value.rawText).value.JObj? ==>
            out.0 == Err(ValueError(NonDictResponse)))
      && (ex.Ok? && p.llmParser(ex.value.rawText).Ok? && p.llmParser(ex.value.rawText).value.JObj? ==>
            var reply := p.llmParser(ex.value.rawText).value;
            out.0 == Ok(ParsedResumeData(ex.value.rawText, SectionsOf(SectionItems(reply.fields)),
                                         map["llm_raw" := reply])))
    ensures GetExtractor(filename, contentType).Err? ==>
      out == (Err(UnsupportedFileFormatError(Extension(filename), contentType)), [])
    ensures out.0.Ok? ==>
      && |out.1| == 1
      && out.0.value.rawText == out.1[0]
      && p.llmParser(out.1[0]).Ok?
      && out.0.value.meta == map["llm_raw" := p.llmParser(out.1[0]).value]
      && out.0.value.sections == SectionsOf(SectionItems(p.llmParser(out.1[0]).value.fields))
  {
    match Extract(data, filename, contentType, p.readPdf, p.readDocx)
    case Err(e) => (Err(e), [])
    case Ok(extracted) =>
      var rawText := extracted.rawText;
      match p.llmParser(rawText)
      case Err(e) => (Err(e), [rawText])
      case Ok(reply) => (MapResponse(reply, rawText), [rawText])
  }

  /** `ResumeParsingPipeline.parse`: extraction, one call of the parser, and the loop that
      collects the sections. */
  method Parse(p: Pipeline, data: Bytes, filename: string, contentType: Option<string>)
    returns (r: Result<ParsedResumeData, Exception>, sent: seq<string>)
    ensures (r, sent) == ParseResult(p, data, filename, contentType)
  {
    var extracted := Extract(data, filename, contentType, p.readPdf, p.readDocx);
    if extracted.Err? {
      return Err(extracted.error), [];
    }
    var rawText := extracted.value.rawText;
    sent := [rawText];
    var reply := p.llmParser(rawText);
    if reply.Err? {
      return Err(reply.error), sent;
    }
    r := MapLlmResponse(reply.value, rawText);
  }
}
