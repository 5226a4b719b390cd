/** The Python exceptions the core raises or lets through, as values. */
module Errors {
  import opened Wrappers

  datatype Exception =
    | ValueError(message: string)
    | TypeError(message: string)
    | AttributeError(message: string)
    | NotImplementedError(message: string)
    /** Raised by the extractor selection; carries the two values its message quotes. */
    | UnsupportedFileFormatError(extension: string, contentType: Option<string>)
    /** FastAPI's HTTPException. */
    | HttpException(status: int, detail: string)
    /** Anything raised by code outside the model: disk I/O, PDF/DOCX libraries, the network, the database. */
    | ForeignError(message: string)

  /** Python's repr of a str, without the escaping of quotes and control characters. */
  function Repr(s: string): string {
    "'" + s + "'"
  }

  function ReprOpt(s: Option<string>): string {
    match s
    case None => "None"
    case Some(v) => Repr(v)
  }

  /** `str(exc)`: the text a caller sees when it turns the exception into a message. */
  function Message(e: Exception): string {
    match e
    case ValueError(m) => m
    case TypeError(m) => m
    case AttributeError(m) => m
    case NotImplementedError(m) => m
    case UnsupportedFileFormatError(ext, ct) =>
      "Unsupported file format: extension=" + Repr(ext) + ", content_type=" + ReprOpt(ct)
    case HttpException(_, d) => d
    case ForeignError(m) => m
  }
}
