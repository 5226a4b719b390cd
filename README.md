# FastMatch resume parsing core, modelled in Dafny

FastMatch takes a résumé upload in PDF or DOCX form. It stores the file under a generated
name and extracts the text. It asks an LLM to split the text into sections, and keeps the
result, in memory or in a database. It can also ask the LLM for a version of a stored résumé
tailored to a job description, with a cover letter. This project models that core and proves
its contracts:

- the LLM reply sanitiser: the two MULTILINE fence rules, backtick and quote unwrapping;
- provider selection, and the settings it reads;
- the mapping from an LLM reply to résumé sections, with Python truthiness written out;
- extractor dispatch, and PDF and DOCX text assembly;
- on-disk naming of stored files;
- the two upload services and the customisation service;
- the repository, its tables modelled as sequences of rows.

Foreign code is passed in as function parameters:

- the PDF and DOCX readers;
- the LLM (`generate_json`) and its provider backend;
- `json.loads`;
- the prompt builders.

Effects become parameters or state:

- the file write is a `Disk` object whose `Write` takes the failure, if any, as an argument;
- `uuid4` and `utcnow` are parameters;
- the calls an operation makes to the LLM are returned as the list of prompts sent, in order.

Modules, one per file:

- `Wrappers`, `Errors`, `JsonValue`: outcomes, Python exceptions, decoded JSON with `bool()`, `len()` and `dict.get`;
- `Text`, `Paths`: `strip`, `lower`, `join`, `splitlines`, and pathlib's `name` and `suffix`;
- `Config`, `LlmClient`: settings, the sanitiser and the clients;
- `Domain`, `Parsing`, `ResumePipeline`: records, the reply mapper and `ParsingService`, the module pipeline;
- `FileExtractors`, `Storage`: extractors, stored-file naming, `DiskFileStorage`, `IngestionService`;
- `Persistence`: `ResumeRepository`;
- `ResumeService`: the database-backed feature service;
- `MemoryResumeService`: the in-memory module service.

## Model

| member | source | states |
|---|---|---|
| Config.BoolIgnoresCase | backend/app/core/config.py:45-47 | `_bool` reads a value and its lower-cased form alike |
| Config.ParseInt | backend/app/core/config.py:43 | `int(s)` gives a value only for text that is not blank once stripped |
| Config.DigitsParse | backend/app/core/config.py:43 | a digit string, optionally after '-', parses to its value with that sign |
| Config.ParseIntText | backend/app/core/config.py:43 | `int(str(i)) == i` for every integer: any integer LLM_TIMEOUT is read back exactly |
| Config.LoadSettings | backend/app/core/config.py:16-43 | provider lower-cased, default "gemini"; outside {"gemini","openai"} a ValueError naming it, raised at construction; an allowed provider succeeds iff LLM_TIMEOUT (default "30") is an integer; every field comes from its variable or its default |
| Config.DefaultSettings | backend/app/core/config.py:16-43 | an environment without the variables gives DEBUG false, "storage/resumes", "gemini", no keys and timeout 30 |
| Config.DebugDefaultOff | backend/app/core/config.py:18 | the DEBUG default "false" reads as false |
| Config.DefaultTimeout | backend/app/core/config.py:43 | the LLM_TIMEOUT default "30" reads as 30 |
| Config.ProviderLowerCased | backend/app/core/config.py:26-33 | "OpenAI" is accepted and stored as "openai" |
| LlmClient.StripOpenFences | backend/app/integrations/llm/client.py:52 | the opening-fence substitution never lengthens the text |
| LlmClient.StripCloseFences | backend/app/integrations/llm/client.py:53 | the closing-fence substitution never lengthens the text |
| LlmClient.UnwrapQuotes | backend/app/integrations/llm/client.py:61-68 | the text changes only by dropping a matching pair of ' or " around more than two characters whose second is '{' or '[' |
| LlmClient.Polish | backend/app/integrations/llm/client.py:56-71 | the steps after the fence rules leave stripped text no longer than their input |
| LlmClient.CleanJsonResponse | backend/app/integrations/llm/client.py:48-73 | empty text is returned unchanged; any result is stripped and no longer than the input |
| LlmClient.FencesUnchanged | backend/app/integrations/llm/client.py:52-53 | text without a triple backtick passes both MULTILINE fence rules unchanged |
| LlmClient.CleanWithoutFences | backend/app/integrations/llm/client.py:48-73 | non-empty text without a fence is only put through the strip and unwrap steps |
| LlmClient.CleanPlainText | backend/app/integrations/llm/client.py:48-73 | text with no backtick and not starting with a quote comes back stripped, so plain JSON passes untouched |
| LlmClient.CleanFencedJson | backend/app/integrations/llm/client.py:52-53 | "```" or "```json", newline, J, newline, "```" sanitises to J stripped, for J starting with '{' or '[' and free of backticks |
| LlmClient.CleanBacktickWrapped | backend/app/integrations/llm/client.py:56 | "`" + J + "`" sanitises to J stripped |
| LlmClient.CleanQuoteWrapped | backend/app/integrations/llm/client.py:61-68 | J wrapped in ' or " sanitises to J stripped |
| LlmClient.CleanQuotedScalarKept | backend/app/integrations/llm/client.py:61-68 | quoted text not starting with '{' or '[' keeps its quotes |
| LlmClient.CleanQuoted | backend/app/integrations/llm/client.py:58-71 | text between equal quotes, without backticks, is only unwrapped and stripped |
| LlmClient.CleanJsonFixedPoint | backend/app/integrations/llm/client.py:48-73 | stripped JSON text without backticks is a fixed point of the sanitiser |
| LlmClient.CleanFencedTwice | backend/app/integrations/llm/client.py:48-73 | sanitising the sanitised form of a fenced reply changes nothing |
| LlmClient.NewGeminiClient | backend/app/integrations/llm/client.py:33-35 | an explicit non-empty model wins over GEMINI_MODEL |
| LlmClient.NewOpenAIClient | backend/app/integrations/llm/client.py:108-113 | the constructor succeeds iff a non-empty key is given; otherwise ValueError |
| LlmClient.GenerateJson | backend/app/integrations/llm/client.py:75-98 | OpenAI always raises NotImplementedError; a backend error propagates; a decodable sanitised reply is returned as decoded; otherwise a ValueError whose message starts "Gemini returned invalid JSON. Error: " and the decode error |
| LlmClient.CreateLlmClient | backend/app/integrations/llm/client.py:123-135 | success iff the provider is "gemini", with a client on GEMINI_MODEL; "openai" always fails, because no key is passed; any other name is "Unsupported LLM provider" |
| LlmClient.CreateFromLoadedSettings | backend/app/integrations/llm/client.py:127-135 | for settings that loaded, the factory succeeds exactly for "gemini", and every failure is the missing OpenAI key |
| Domain.CreateBaseResume | backend/app/modules/resumes/domain.py:58-75 | `BaseResume.create` copies filename, content type, path and parse data, under the id and time drawn for it |
| Parsing.SectionItems | backend/app/features/resumes/parsing/utils.py:78-80 | a missing, falsy or non-list `sections` gives no items; a list gives its items |
| Parsing.MakeSection | backend/app/features/resumes/parsing/utils.py:90-96 | title, content and raw_content are copied (None when absent); order is the index |
| Parsing.SectionsOf | backend/app/features/resumes/parsing/utils.py:81-97 | each section comes from a dict item at the index it carries as order; orders strictly increase; at most one section per item |
| Parsing.SectionsCount | backend/app/features/resumes/parsing/utils.py:81-97 | exactly one section per dict item |
| Parsing.DictItemKept | backend/app/features/resumes/parsing/utils.py:81-97 | every dict item at index i yields its section with order i |
| Parsing.AllDictsOrders | backend/app/features/resumes/parsing/utils.py:81-95 | with N dict items the orders are 0..N-1 |
| Parsing.MapResponse | backend/app/features/resumes/parsing/utils.py:66-115 | a non-dict reply is ValueError; a dict gives raw_text, the sections of its items and meta {"llm_raw": reply} |
| Parsing.MapLlmResponse | backend/app/features/resumes/parsing/utils.py:66-115 | the enumerate-and-append loop computes MapResponse; Ok iff the reply is a dict; raw_text and meta as given |
| Parsing.NoListNoSections | backend/app/features/resumes/parsing/utils.py:78-80 | a falsy or non-list `sections` maps to zero sections without error |
| Parsing.ParseText | backend/app/features/resumes/parsing/service.py:27-60 | one prompt sent; an LLM error propagates; success iff the reply is a dict with a `len`-able `sections` (or none); success equals the mapper's result and keeps raw_text |
| Parsing.ParseNonDictReply | backend/app/features/resumes/parsing/service.py:40-43 | a non-dict reply fails with AttributeError on `.get` before the mapper runs |
| Parsing.EagerLenFails | backend/app/features/resumes/parsing/service.py:40-46 | `sections` null or a number makes parse raise TypeError, while the mapper alone would give zero sections |
| Parsing.ParseWithoutSections | backend/app/features/resumes/parsing/service.py:38-46 | a dict with no `sections`, or an empty list, parses to zero sections |
| ResumePipeline.NewPipeline | backend/app/modules/resumes/parsing/pipeline.py:11-25 | construction succeeds iff an LLM parser is given; otherwise ValueError |
| ResumePipeline.ParseResult | backend/app/modules/resumes/parsing/pipeline.py:27-78 | extraction errors, unsupported format included, propagate with no parser call; the parser receives exactly the extracted text; its errors propagate; a non-dict result is ValueError; a dict result always succeeds, holding that text, meta {"llm_raw": …} and the sections of its items, so a falsy or non-list `sections` gives zero sections |
| ResumePipeline.Parse | backend/app/modules/resumes/parsing/pipeline.py:27-78 | the method, with its section loop, computes ParseResult |
| FileExtractors.GetExtractor | backend/app/modules/file_extractors/core/factory.py:27-47 | an extractor is chosen iff the lower-cased extension is ".pdf"/".docx" or the content type is a PDF/DOCX type; otherwise UnsupportedFileFormatError quoting both |
| FileExtractors.ExtensionDecides | backend/app/modules/file_extractors/core/factory.py:32-37 | a ".pdf"/".docx" extension decides whatever the content type |
| FileExtractors.ContentTypeFallback | backend/app/modules/file_extractors/core/factory.py:39-42 | for other extensions only the content type matters |
| FileExtractors.UpperCaseExtension | backend/app/integrations/file_extractors/client.py:104-107 | "CV.PDF" selects the PDF extractor |
| FileExtractors.PageTexts | backend/app/modules/file_extractors/core/pdf_extractor.py:26-28 | one text per page in page order, "" for a page without text |
| FileExtractors.StripEach | backend/app/modules/file_extractors/core/pdf_extractor.py:33 | each element stripped, count and order kept |
| FileExtractors.PdfExtract | backend/app/modules/file_extractors/core/pdf_extractor.py:22-35 | the page loop gives page texts joined by "\n" and their stripped `splitlines`; no pages gives ("", []); every line is stripped and has no boundary |
| FileExtractors.PdfLinesOfPages | backend/app/integrations/file_extractors/client.py:44-51 | for single-line pages the lines are the stripped page texts, less a final empty page |
| FileExtractors.NonEmpty | backend/app/modules/file_extractors/core/docx_extractor.py:22 | keeps only non-empty elements of the input, never more than it had |
| FileExtractors.NonEmptyAppend | backend/app/modules/file_extractors/core/docx_extractor.py:22 | the filter keeps order |
| FileExtractors.NonEmptyKeepsAll | backend/app/modules/file_extractors/core/docx_extractor.py:22 | nothing non-empty is dropped |
| FileExtractors.DocxExtract | backend/app/modules/file_extractors/core/docx_extractor.py:16-26 | lines are the stripped non-empty paragraphs in order, at most one per paragraph; raw_text is them joined by "\n" |
| FileExtractors.DocxLinesOfText | backend/app/integrations/file_extractors/client.py:64-71 | splitting raw_text gives back the lines |
| FileExtractors.Extract | backend/app/integrations/file_extractors/client.py:92-119 | unsupported fails before any reader runs; otherwise the chosen reader's result assembled, reader errors passed on |
| FileExtractors.UnsupportedIgnoresReaders | backend/app/integrations/file_extractors/client.py:116-119 | an unsupported file fails the same whatever the readers would do |
| Paths.Name | backend/app/modules/resumes/storage.py:34 | the basename holds no '/' and is never "." |
| Paths.NameIdempotent | backend/app/modules/resumes/storage.py:34 | the basename of a basename is itself |
| Paths.Suffix | backend/app/modules/resumes/storage.py:37 | a suffix is empty or a '.' plus at least one character without '.', ending the name and shorter than it |
| Paths.NameOfJoin | backend/app/features/resumes/ingestion/service.py:36-37 | the basename of dir + "/" + name is name, "../" segments included |
| Storage.OrDefault | backend/app/features/resumes/service.py:75 | `x or default`: None and "" give the default |
| Storage.DiskName | backend/app/modules/resumes/storage.py:34-41 | the on-disk name starts with the id |
| Storage.DiskNameIsPlain | backend/app/modules/resumes/storage.py:34-43 | the on-disk name of an id without '/' has no '/', so the target is directly in the base directory |
| Storage.DiskNameWithoutExtension | backend/app/modules/resumes/storage.py:37-41 | a name without a suffix is stored under the bare id |
| Storage.TraversalDiskName | backend/app/features/resumes/ingestion/service.py:36-44 | directory segments never reach the disk: "dir/…/name.ext" is stored as the id plus the lower-cased ".ext" |
| Storage.ExtensionOfDiskName | backend/app/features/resumes/ingestion/service.py:37-44 | for an id without '/' or '.', the stored file has the client name's extension |
| Storage.Disk.Write | backend/app/modules/resumes/storage.py:46-47 | a write stores exactly the bytes at the path; a failed write changes nothing |
| Storage.DiskFileStorage.Save | backend/app/modules/resumes/storage.py:32-51 | the bytes are written unchanged at base_dir/<id><ext> and that path returned; a failed write is raised with the disk unchanged |
| Storage.IngestionService.SaveFile | backend/app/features/resumes/ingestion/service.py:31-61 | the same naming and write; a failure is re-raised |
| Storage.IngestionService.ExtractText | backend/app/features/resumes/ingestion/service.py:63-102 | the extractor's raw_text; UnsupportedFileFormatError and every other error re-raised unchanged |
| Persistence.Owned | backend/app/features/resumes/persistence/repository.py:111-122 | no user keeps every row; otherwise exactly the rows of that user |
| Persistence.SortNewestFirst | backend/app/features/resumes/persistence/repository.py:114-121 | `ORDER BY created_at DESC`: newest first and a permutation |
| Persistence.VersionSectionRow | backend/app/features/resumes/persistence/repository.py:172-179 | title, content, raw_content copied (None when absent); order is the item's own "order" when present, the index otherwise |
| Persistence.ResumeRepository.Create | backend/app/features/resumes/persistence/repository.py:28-44 | the row is appended; raw_text is the parse data's text when present, None otherwise; it is then found by id |
| Persistence.ResumeRepository.GetById | backend/app/features/resumes/persistence/repository.py:54-83 | the row with that id, or None exactly when there is none |
| Persistence.ResumeRepository.ListByUserId | backend/app/features/resumes/persistence/repository.py:105-129 | the user's rows (all rows for None), each exactly once, newest first |
| Persistence.ResumeRepository.CreateVersion | backend/app/features/resumes/persistence/repository.py:138-200 | succeeds iff every item is a dict, with one section row per item in order; otherwise the first non-dict's AttributeError and no version stored |
| ResumeService.SectionDicts | backend/app/features/resumes/service.py:289-295 | one dict per stored section with exactly title, content and raw_content |
| ResumeService.CustomItems | backend/app/features/resumes/service.py:319-321 | the reply's `sections` when a list, [] otherwise |
| ResumeService.CoverLetterOf | backend/app/features/resumes/service.py:324-343 | the "cover_letter" value of a dict reply that has one, None for anything else, errors included |
| ResumeService.ResumeService.AfterSave | backend/app/features/resumes/service.py:85-132 | unsupported format gives 400 with the error's message; other extraction errors propagate; no prompt sent on either; otherwise one parse; success keeps its data with no warning, failure gives None and exactly the one warning; content type defaults to "application/octet-stream" |
| ResumeService.ResumeService.CreateBaseResumeFromUpload | backend/app/features/resumes/service.py:46-132 | a failed save is raised first, with no extraction, no prompt and the disk unchanged; otherwise the bytes are stored under the name derived from the filename (or "unknown") and the rest is AfterSave; no repository is touched |
| ResumeService.ResumeService.CreateCustomVersion | backend/app/features/resumes/service.py:228-372 | in order: no session 500, no LLM 500, no resume 404, no sections 400, all before any prompt; an LLM HTTPException passes, other errors 500; a non-dict or sectionless reply 500; then exactly one cover-letter prompt, whose failure leaves None; the version is stored iff every item is a dict, else 500; the stored version has the given id, the resume, the job description, the cover letter, and one section row per reply item, in order, built from that item's fields |
| MemoryResumeService.ResumeService.GetResume | backend/app/modules/resumes/service.py:118-119 | the stored resume, or None exactly for an id never stored |
| MemoryResumeService.ResumeService.ListResumes | backend/app/modules/resumes/service.py:121-122 | exactly the stored values, one per id, in insertion order |
| MemoryResumeService.ResumeService.CreateBaseResumeFromUpload | backend/app/modules/resumes/service.py:38-114 | save first, a failure raised with the store unchanged; unsupported gives 400 with the store unchanged; otherwise the pipeline's data (or None plus one warning) is stored under the id, and a fresh id adds exactly one entry |

## Left out

- Logging, `mkdir` of the storage directory, async scheduling and the FastAPI layer are not modelled.
- `uuid4` and `utcnow` are parameters: freshness of a generated id is a caller's precondition (`Create`) or a case of the contract (the in-memory store).
- The PDF/DOCX libraries, the Gemini SDK and `json.loads` are function parameters. Their own behaviour is not modelled.
- A Gemini reply whose text is None (`resp.text`) is not modelled; the backend returns a string.
- The prompt builders are opaque functions. Their templates and `textwrap.dedent` are not modelled.
- `str.lower()` is modelled on ASCII letters only. `repr` is modelled without escaping quotes or control characters.
- JSON numbers are integers or reals; NaN and infinities are not modelled.
- The regex fence rules are modelled as scans over the original text, with `\s` as the `str.isspace` set.
- `FileExtractorClient` and `FileTextExtractorFactory`, the two PDF extractors and the two DOCX extractors have one model each; the copies are textually the same.
- The reply-to-sections loop of the module pipeline is the same loop as `map_llm_response_to_parsed_data`, and `Parse` calls `MapLlmResponse` for it. The mapper's `try`/re-raise adds nothing.
- backend/app/features/resumes/models.py is not part of this model; its records are taken to have the shapes of backend/app/modules/resumes/domain.py.
- Config.ParseInt: only ASCII digits are read; int() also reads other Unicode decimal digits, so an LLM_TIMEOUT written in, say, full-width digits loads in the source and is a ValueError in Config.LoadSettings here.
- Persistence.ResumeRepository.Create: a primary-key clash is excluded by a precondition rather than modelled as a database error.
- Persistence.ResumeRepository.GetById and ListByUserId: database errors are not modelled; `load_sections` is always true.
- Persistence.ResumeRepository.CreateVersion: on a non-dict item the version row already flushed is discarded when the request's session rolls back (backend/app/core/database.py:49-55); the model stores nothing on that path and does not model the session. Section ids come from `uuid4` and are left out of the rows.
- Persistence.ResumeRepository.CreateVersion and ResumeService.ResumeService.CreateCustomVersion: column types and lengths of the tables are not modelled (`order` is an Integer, `title` a String(255), `cover_letter` a Text column). A row the database would reject at flush, such as an item whose "order" is a string or a cover letter that is a dict, is stored by the model, where the source raises and answers 500.
- Sections read back from the database are ordered by `order`; the model keeps them in insertion order.
- Persistence.SortNewestFirst: rows with equal `created_at` come back in an order the database does not fix; the model picks one and proves only what every such order satisfies.
- Storage.Disk.Write: a write either happens completely or fails before changing anything; partial writes are not modelled.
- Paths.JoinPath assumes a base directory already in pathlib's normal form (no trailing '/', no "." segments).
- `list_all`, `list_resumes`, `get_resume_by_id` and `get_version_by_id` of the feature service and repository are not modelled. They pass repository results through with the same HTTP error mapping as `create_custom_version`.
- The debug helpers and the HTTP routers are not modelled.
