/** Text extraction from uploaded files: choosing the extractor by extension or content type,
    and assembling the text of PDF pages and DOCX paragraphs. The PDF and DOCX libraries are
    outside the model: they are passed in as readers from the file's bytes to its page or
    paragraph texts. */
module FileExtractors {
  import opened Wrappers
  import opened Text
  import opened Paths
  import opened Errors

  newtype Byte = x: int | 0 <= x < 256
  type Bytes = seq<Byte>

  /** What an extractor returns: the full text and its lines. */
  datatype FileExtractResult = FileExtractResult(rawText: string, lines: seq<string>)

  datatype ExtractorKind = Pdf | Docx

  /** PyPDF2: the result of `extract_text()` for each page of the document, in page order. */
  type PdfReader = Bytes -> Result<seq<Option<string>>, Exception>
  /** python-docx: the text of each paragraph of the document, in document order. */
  type DocxReader = Bytes -> Result<seq<string>, Exception>

  const PdfContentType: string := "application/pdf"
  const DocxContentType: string := "application/vnd.openxmlformats-officedocument.wordprocessingml.document"

  /** The extractor for a file: the lower-cased extension decides first, the content type only
      when the extension is neither ".pdf" nor ".docx"; anything else is unsupported, and the
      error quotes the extension and the content type. */
  function GetExtractor(filename: string, contentType: Option<string>): (r: Result<ExtractorKind, Exception>)
    ensures r.Ok? <==>
      Extension(filename) in {".pdf", ".docx"} || contentType in {Some(PdfContentType), Some(DocxContentType)}
    ensures r.Err? ==> r.error == UnsupportedFileFormatError(Extension(filename), contentType)
  {
    var extension := Extension(filename);
    if extension == ".pdf" then Ok(Pdf)
    else if extension == ".docx" then Ok(Docx)
    else if contentType == Some(PdfContentType) then Ok(Pdf)
    else if contentType == Some(DocxContentType) then Ok(Docx)
    else Err(UnsupportedFileFormatError(extension, contentType))
  }

  /** A ".pdf" or ".docx" extension selects its extractor whatever the content type says. */
  lemma ExtensionDecides(filename: string, contentType: Option<string>)
    requires Extension(filename) in {".pdf", ".docx"}
    ensures GetExtractor(filename, contentType) == GetExtractor(filename, None)
    ensures GetExtractor(filename, contentType) == Ok(if Extension(filename) == ".pdf" then Pdf else Docx)
  {
  }

  /** When the extension is neither, only the content type matters: two such files with the same
      content type get the same answer, apart from the extension quoted in the error. */
  lemma ContentTypeFallback(f: string, g: string, contentType: Option<string>)
    requires Extension(f) !in {".pdf", ".docx"} && Extension(g) !in {".pdf", ".docx"}
    ensures GetExtractor(f, contentType).Ok? == GetExtractor(g, contentType).Ok?
    ensures GetExtractor(f, contentType).Ok? ==> GetExtractor(f, contentType) == GetExtractor(g, contentType)
    ensures GetExtractor(f, contentType) == Ok(Pdf) <==> contentType == Some(PdfContentType)
  {
  }

  /** The extension is matched without regard to case. A single example, mirroring the
      extractor tests; `ExtensionDecides` covers every file name. */
  lemma UpperCaseExtension()
    ensures GetExtractor("CV.PDF", None) == Ok(Pdf)
  {
    assert Extension("CV.PDF") == ".pdf" by { UpperCasePdfName(); }
  }

  lemma UpperCasePdfName()
    ensures Extension("CV.PDF") == ".pdf"
  {
    var s := "CV.PDF";
    assert RFind(s, '/') == -1;
    assert Name(s) == s by { assert s[0..] == s; }
    assert RFind(s, '.') == 2 by {
      assert RFind("CV.", '.') == 2;
      assert "CV.P"[..3] == "CV.";
      assert RFind("CV.P", '.') == 2;
      assert "CV.PD"[..4] == "CV.P";
      assert RFind("CV.PD", '.') == 2;
      assert s[..5] == "CV.PD";
    }
    assert Suffix(s) == ".PDF";
    assert Lower(".PDF") == ".pdf";
  }

  /** `page.extract_text() or ""`: a page without text contributes the empty string. */
  function PageText(page: Option<string>): string {
    match page
    case None => ""
    case Some(t) => t
  }

  function PageTexts(pages: seq<Option<string>>): (r: seq<string>)
    ensures |r| == |pages|
    ensures forall k :: 0 <= k < |pages| ==> r[k] == PageText(pages[k])
  {
    seq(|pages|, k requires 0 <= k < |pages| => PageText(pages[k]))
  }

  /** `[x.strip() for x in xs]`. */
  function StripEach(xs: seq<string>): (r: seq<string>)
    ensures |r| == |xs|
    ensures forall k :: 0 <= k < |xs| ==> r[k] == Strip(xs[k])
  {
    seq(|xs|, k requires 0 <= k < |xs| => Strip(xs[k]))
  }

  /** The PDF extractor's result: the page texts joined by "\n", and the lines of that text,
      each stripped. */
  function PdfResult(pages: seq<Option<string>>): FileExtractResult {
    var fullText := Join(PageTexts(pages), "\n");
    FileExtractResult(fullText, StripEach(SplitLines(fullText)))
  }

  /** `PdfFileTextExtractor.extract` once the reader has produced the page texts: the loop
      collects the texts page by page, then the lines are split and stripped. */
  method PdfExtract(pages: seq<Option<string>>) returns (result: FileExtractResult)
    ensures result == PdfResult(pages)
    ensures pages == [] ==> result == FileExtractResult("", [])
    ensures forall k :: 0 <= k < |result.lines| ==> Stripped(result.lines[k]) && NoLineBreak(result.lines[k])
  {
    var texts: seq<string> := [];
    var i := 0;
    while i < |pages|
      invariant 0 <= i <= |pages|
      invariant texts == PageTexts(pages[..i])
    {
      texts := texts + [PageText(pages[i])];
      i := i + 1;
    }
    assert pages[..i] == pages;
    var fullText := Join(texts, "\n");
    var split := SplitLines(fullText);
    var lines := StripEach(split);
    forall k | 0 <= k < |lines|
      ensures NoLineBreak(lines[k])
    {
      StripByKeeps(split[k], IsSpace, c => !IsLineBreak(c));
    }
    result := FileExtractResult(fullText, lines);
  }

  /** When no page text contains a line boundary, the lines are the stripped page texts in page
      order, blank pages included as "", except that a blank last page opens no line. */
  lemma {:induction false} PdfLinesOfPages(pages: seq<Option<string>>)
    requires pages != []
    requires forall k :: 0 <= k < |pages| ==> NoLineBreak(PageText(pages[k]))
    ensures var texts := PageTexts(pages);
      PdfResult(pages).lines ==
        StripEach(DropEmptyLast(texts))
  {
    SplitLinesOfJoin(PageTexts(pages));
  }

  /** `[p for p in ps if p]`. */
  function NonEmpty(ps: seq<string>): (r: seq<string>)
    ensures |r| <= |ps|
    ensures forall k :: 0 <= k < |r| ==> r[k] != "" && r[k] in ps
  {
    if ps == [] then []
    else (if ps[0] != "" then [ps[0]] else []) + NonEmpty(ps[1..])
  }

  /** The filter keeps order: filtering a concatenation is concatenating the filtered parts. */
  lemma {:induction false} NonEmptyAppend(a: seq<string>, b: seq<string>)
    ensures NonEmpty(a + b) == NonEmpty(a) + NonEmpty(b)
  {
    if a == [] {
      assert a + b == b;
    } else {
      assert (a + b)[0] == a[0] && (a + b)[1..] == a[1..] + b;
      NonEmptyAppend(a[1..], b);
    }
  }

  /** The filter drops nothing that is not empty. */
  lemma {:induction false} NonEmptyKeepsAll(ps: seq<string>)
    requires forall k :: 0 <= k < |ps| ==> ps[k] != ""
    ensures NonEmpty(ps) == ps
  {
    if ps != [] {
      NonEmptyKeepsAll(ps[1..]);
    }
  }

  /** `DocxFileTextExtractor.extract` once the reader has produced the paragraph texts: the
      lines are the stripped paragraphs that are not empty, in document order, and the text is
      those lines joined by "\n". */
  function DocxExtract(paragraphs: seq<string>): (r: FileExtractResult)
    ensures r.lines == NonEmpty(StripEach(paragraphs))
    ensures r.rawText == Join(r.lines, "\n")
    ensures |r.lines| <= |paragraphs|
    ensures forall k :: 0 <= k < |r.lines| ==> r.lines[k] != "" && Stripped(r.lines[k])
  {
    var lines := NonEmpty(StripEach(paragraphs));
    assert forall k :: 0 <= k < |lines| ==> Stripped(lines[k]) by {
      forall k | 0 <= k < |lines|
        ensures Stripped(lines[k])
      {
        var j :| 0 <= j < |paragraphs| && StripEach(paragraphs)[j] == lines[k];
      }
    }
    FileExtractResult(Join(lines, "\n"), lines)
  }

  /** When no paragraph contains a line boundary, splitting the text gives back the lines. */
  lemma DocxLinesOfText(paragraphs: seq<string>)
    requires forall k :: 0 <= k < |paragraphs| ==> NoLineBreak(paragraphs[k])
    ensures SplitLines(DocxExtract(paragraphs).rawText) == DocxExtract(paragraphs).lines
  {
    var stripped := StripEach(paragraphs);
    var lines := DocxExtract(paragraphs).lines;
    forall k | 0 <= k < |stripped|
      ensures NoLineBreak(stripped[k])
    {
      StripByKeeps(paragraphs[k], IsSpace, c => !IsLineBreak(c));
    }
    if lines != [] {
      forall k | 0 <= k < |lines|
        ensures NoLineBreak(lines[k])
      {
        var j :| 0 <= j < |stripped| && stripped[j] == lines[k];
      }
      SplitLinesOfJoin(lines);
    }
  }

  /** `FileExtractorClient.extract`: select the extractor, read the document with it and
      assemble the text. An unsupported file never reaches a reader; a reader's failure is
      passed on unchanged. */
  function Extract(data: Bytes, filename: string, contentType: Option<string>,
                   readPdf: PdfReader, readDocx: DocxReader): (r: Result<FileExtractResult, Exception>)
    ensures GetExtractor(filename, contentType).Err? ==>
      r == Err(UnsupportedFileFormatError(Extension(filename), contentType))
    ensures GetExtractor(filename, contentType) == Ok(Pdf) ==>
      r == (match readPdf(data) case Ok(pages) => Ok(PdfResult(pages)) case Err(e) => Err(e))
    ensures GetExtractor(filename, contentType) == Ok(Docx) ==>
      r == (match readDocx(data) case Ok(ps) => Ok(DocxExtract(ps)) case Err(e) => Err(e))
  {
    match GetExtractor(filename, contentType)
    case Err(e) => Err(e)
    case Ok(Pdf) =>
      (match readPdf(data) case Ok(pages) => Ok(PdfResult(pages)) case Err(e) => Err(e))
    case Ok(Docx) =>
      (match readDocx(data) case Ok(ps) => Ok(DocxExtract(ps)) case Err(e) => Err(e))
  }

  /** An unsupported file fails the same way whatever the readers would have done. */
  lemma UnsupportedIgnoresReaders(data: Bytes, filename: string, contentType: Option<string>,
                                  pdf1: PdfReader, docx1: DocxReader, pdf2: PdfReader, docx2: DocxReader)
    requires GetExtractor(filename, contentType).Err?
    ensures Extract(data, filename, contentType, pdf1, docx1) == Extract(data, filename, contentType, pdf2, docx2)
  {
  }
}
