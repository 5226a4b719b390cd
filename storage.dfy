/** Storing uploaded files on disk under a generated name, and the ingestion service that
    stores files and extracts their text. The disk is a map from paths to contents; whether a
    write succeeds is decided outside the model and passed in. */
module Storage {
  import opened Wrappers
  import opened Text
  import opened Paths
  import opened Errors
  import opened FileExtractors

  /** What the HTTP layer hands over for an upload: the client's file name and content type,
      either of which may be missing, and the file's bytes. */
  datatype UploadFile = UploadFile(filename: Option<string>, contentType: Option<string>, data: Bytes)

  /** Python's `value or default` on an optional string: None and "" give the default. */
  function OrDefault(value: Option<string>, default: string): (r: string)
    ensures value.Some? && value.value != "" ==> r == value.value
    ensures value.None? || value.value == "" ==> r == default
  {
    if value.Some? && value.value != "" then value.value else default
  }

  /** The file system: the contents of every file, by path. */
  class Disk {
    var files: map<string, Bytes>

    constructor(files: map<string, Bytes>)
      ensures this.files == files
    {
      this.files := files;
    }

    /** Writes `data` at `path`, replacing what was there, unless the write fails. */
    method Write(path: string, data: Bytes, failure: Option<Exception>) returns (error: Option<Exception>)
      modifies this
      ensures error == failure
      ensures failure.None? ==> files == old(files)[path := data]
      ensures failure.Some? ==> files == old(files)
    {
      error := failure;
      if failure.None? {
        files := files[path := data];
      }
    }
  }

  /** The on-disk name of an upload: the generated id followed by the lower-cased extension of
      the last component of the client's name. */
  function DiskName(fileId: string, filename: string): (r: string)
    ensures fileId <= r
  {
    fileId + Extension(filename)
  }

  /** An extension never holds a '/', so the on-disk name of an id without '/' has none either
      and the stored file lands directly inside the storage directory. */
  lemma DiskNameIsPlain(fileId: string, filename: string)
    requires '/' !in fileId
    ensures '/' !in DiskName(fileId, filename)
  {
    var name := Name(filename);
    var sfx := Suffix(name);
    assert forall k :: 0 <= k < |sfx| ==> sfx[k] == name[|name| - |sfx| + k];
    assert forall k :: 0 <= k < |sfx| ==> Extension(filename)[k] == LowerChar(sfx[k]);
  }

  /** A name without an extension is stored under the bare id. */
  lemma DiskNameWithoutExtension(fileId: string, filename: string)
    requires Suffix(Name(filename)) == ""
    ensures DiskName(fileId, filename) == fileId
  {
  }

  /** Directory segments of the client's name never reach the disk: a name such as
      "../../../etc/passwd.pdf" is stored under the id followed by the extension of its last
      component, whatever the directory part. */
  lemma TraversalDiskName(fileId: string, dir: string, name: string)
    requires '/' !in name && name != "" && name != "."
    ensures DiskName(fileId, dir + "/" + name) == fileId + Lower(Suffix(name))
  {
    NameOfJoin(dir, name);
  }

  /** The stored name keeps the extension the extractor dispatches on: for an id with no '/'
      and no '.', such as a uuid, the stored file has the same extension as the client's. */
  lemma ExtensionOfDiskName(fileId: string, filename: string)
    requires fileId != []
    requires forall k :: 0 <= k < |fileId| ==> fileId[k] != '/' && fileId[k] != '.'
    ensures Extension(DiskName(fileId, filename)) == Extension(filename)
  {
    var ext := Extension(filename);
    var d := fileId + ext;
    ExtensionShape(filename);
    assert Name(d) == d by {
      DiskNameIsPlain(fileId, filename);
      assert d[0] == fileId[0] != '.';
      PlainName(d);
    }
    if ext == "" {
      assert d == fileId;
      SuffixWithoutDot(d);
    } else {
      assert d[|fileId|..] == ext;
      SuffixAtDot(d, |fileId|);
      LowerIdempotent(Suffix(Name(filename)));
    }
  }

  /** An extension is empty, or a '.' followed by at least one character none of which is a
      '.'; it holds no '/'. */
  lemma ExtensionShape(filename: string)
    ensures var ext := Extension(filename);
      ext == "" || (|ext| >= 2 && ext[0] == '.' && forall k :: 1 <= k < |ext| ==> ext[k] != '.')
  {
    var sfx := Suffix(Name(filename));
    assert forall k :: 1 <= k < |sfx| ==> sfx[k] in sfx[1..];
  }

  /** A non-empty text without '/' that is not "." is its own last path component. */
  lemma PlainName(d: string)
    requires d != [] && d != "." && '/' !in d
    ensures Name(d) == d
  {
    assert RFind(d, '/') == -1;
    assert d[0..] == d;
  }

  lemma SuffixWithoutDot(d: string)
    requires forall k :: 0 <= k < |d| ==> d[k] != '.'
    ensures Suffix(d) == ""
  {
  }

  /** The suffix starts at the last '.', when that is neither the first nor the last character. */
  lemma SuffixAtDot(d: string, i: int)
    requires 0 < i < |d| - 1 && d[i] == '.'
    requires forall k :: i < k < |d| ==> d[k] != '.'
    ensures Suffix(d) == d[i..]
  {
    assert RFind(d, '.') == i;
  }

  /** `DiskFileStorage`: files are written to `baseDir` under their on-disk names. */
  class DiskFileStorage {
    const baseDir: string
    const disk: Disk

    constructor(baseDir: string, disk: Disk)
      ensures this.baseDir == baseDir && this.disk == disk
    {
      this.baseDir := baseDir;
      this.disk := disk;
    }

    /** `DiskFileStorage.save`: the bytes are written, unchanged, under the generated name
        directly inside the base directory, and the path is returned; a failed write is raised
        and leaves the disk as it was. */
    method Save(data: Bytes, filename: string, fileId: string, failure: Option<Exception>)
      returns (r: Result<string, Exception>)
      modifies disk
      ensures failure.Some? ==> r == Err(failure.value) && disk.files == old(disk.files)
      ensures failure.None? ==> r == Ok(JoinPath(baseDir, DiskName(fileId, filename)))
      ensures failure.None? ==> disk.files == old(disk.files)[r.value := data]
    {
      var safeName := Name(filename);
      var ext := Lower(Suffix(safeName));
      var targetPath := JoinPath(baseDir, fileId + ext);
      var error := disk.Write(targetPath, data, failure);
      if error.Some? {
        return Err(error.value);
      }
      r := Ok(targetPath);
    }
  }

  /** `IngestionService`: stores uploads like `DiskFileStorage` and extracts their text. */
  class IngestionService {
    const baseDir: string
    const disk: Disk
    const readPdf: PdfReader
    const readDocx: DocxReader

    constructor(baseDir: string, disk: Disk, readPdf: PdfReader, readDocx: DocxReader)
      ensures this.baseDir == baseDir && this.disk == disk
      ensures this.readPdf == readPdf && this.readDocx == readDocx
    {
      this.baseDir := baseDir;
      this.disk := disk;
      this.readPdf := readPdf;
      this.readDocx := readDocx;
    }

    /** `IngestionService.save_file`: the same naming and write as `DiskFileStorage.save`; a
        failure is logged and raised again unchanged. */
    method SaveFile(data: Bytes, filename: string, fileId: string, failure: Option<Exception>)
      returns (r: Result<string, Exception>)
      modifies disk
      ensures failure.Some? ==> r == Err(failure.value) && disk.files == old(disk.files)
      ensures failure.None? ==> r == Ok(JoinPath(baseDir, DiskName(fileId, filename)))
      ensures failure.None? ==> disk.files == old(disk.files)[r.value := data]
    {
      var safeName := Name(filename);
      var ext := Lower(Suffix(safeName));
      var targetPath := JoinPath(baseDir, fileId + ext);
      var error := disk.Write(targetPath, data, failure);
      if error.Some? {
        return Err(error.value);
      }
      r := Ok(targetPath);
    }

    /** `IngestionService.extract_text`: the extracted text; every extraction error, the
        unsupported format included, is raised again unchanged. */
    function ExtractText(data: Bytes, filename: string, contentType: Option<string>): (r: Result<string, Exception>)
      ensures var ex := Extract(data, filename, contentType, readPdf, readDocx);
        (ex.Ok? ==> r == Ok(ex.value.rawText)) && (ex.Err? ==> r == Err(ex.error))
      ensures GetExtractor(filename, contentType).Err? ==>
        r == Err(UnsupportedFileFormatError(Extension(filename), contentType))
    {
      match Extract(data, filename, contentType, readPdf, readDocx)
      case Ok(result) => Ok(result.rawText)
      case Err(e) => Err(e)
    }
  }
}
