/** The resume service that keeps uploaded resumes in memory: upload through the parsing
    pipeline, then lookup by id and listing. */
module MemoryResumeService {
  import opened Wrappers
  import opened Errors
  import opened Paths
  import opened Domain
  import opened FileExtractors
  import opened ResumePipeline
  import opened Storage

  const ParseWarning: string := "Failed to parse resume. Parsed data is not available."

  /** The message of the TypeError `Path(None)` raises when the upload carries no file name,
      as CPython 3.11 and earlier word it; later versions word it differently, and only the
      exception's kind is stable. */
  const NoFilename: string := "expected str, bytes or os.PathLike object, not NoneType"

  /** `ResumeService` of the in-memory module. The store is a dict from id to resume; `keys`
      records its insertion order, which is the order `list_resumes` returns. */
  class ResumeService {
    const storage: DiskFileStorage
    const pipeline: Pipeline
    var keys: seq<string>
    var store: map<string, BaseResume>

    /** Every stored id appears exactly once in the insertion order. */
    predicate Valid()
      reads this
    {
      (forall k :: 0 <= k < |keys| ==> keys[k] in store)
      && (forall id :: id in store ==> id in keys)
      && (forall j, k :: 0 <= j < k < |keys| ==> keys[j] != keys[k])
    }

    constructor(storage: DiskFileStorage, pipeline: Pipeline)
      ensures Valid()
      ensures this.storage == storage && this.pipeline == pipeline
      ensures keys == [] && store == map[]
    {
      this.storage := storage;
      this.pipeline := pipeline;
      keys := [];
      store := map[];
    }

    /** `get_resume`: the resume stored under the id, or None. */
    function GetResume(resumeId: string): (r: Option<BaseResume>)
      reads this
      ensures r.Some? <==> resumeId in store
      ensures r.Some? ==> r.value == store[resumeId]
    {
      if resumeId in store then Some(store[resumeId]) else None
    }

    /** `list_resumes`: the stored resumes, in insertion order. */
    function ListResumes(): (r: seq<BaseResume>)
      requires Valid()
      reads this
      ensures |r| == |keys| == |store|
      ensures forall k :: 0 <= k < |keys| ==> r[k] == store[keys[k]]
      ensures forall b :: b in r <==> b in store.Values
    {
      KeysCount();
      var ks, st := keys, store;
      var r := seq(|ks|, k requires 0 <= k < |ks| => st[ks[k]]);
      forall b | b in store.Values
        ensures b in r
      {
        var id :| id in store && store[id] == b;
        var k :| 0 <= k < |keys| && keys[k] == id;
        assert r[k] == b;
      }
      r
    }

    /** The insertion order lists as many ids as the store holds. */
    lemma KeysCount()
      requires Valid()
      ensures |keys| == |store|
    {
      assert (set k | 0 <= k < |keys| :: keys[k]) == store.Keys;
      DistinctCount(keys);
    }

    /** `create_base_resume_from_upload`: the file is saved first, and a failed save is raised
        with the store unchanged; an unsupported format becomes HTTP 400, the store unchanged;
        any other parse failure keeps the resume without parse data and with exactly one
        warning. The resume is then stored under its id. */
    method CreateBaseResumeFromUpload(file: UploadFile, resumeId: string, now: int, fileId: string,
                                      writeFailure: Option<Exception>)
      returns (r: Result<(BaseResume, seq<string>), Exception>, sent: seq<string>)
      requires Valid()
      modifies this, storage.disk
      ensures Valid()
      ensures r.Err? ==> keys == old(keys) && store == old(store)
      ensures file.filename.None? ==> r == Err(TypeError(NoFilename)) && sent == [] && storage.disk.files == old(storage.disk.files)
      ensures file.filename.Some? && writeFailure.Some? ==>
        r == Err(writeFailure.value) && sent == [] && storage.disk.files == old(storage.disk.files)
      ensures file.filename.Some? && writeFailure.None? ==>
        var path := JoinPath(storage.baseDir, DiskName(fileId, file.filename.value));
        storage.disk.files == old(storage.disk.files)[path := file.data]
      ensures file.filename.Some? && writeFailure.None? ==>
        var parsed := ParseResult(pipeline, file.data, file.filename.value, file.contentType);
        && sent == parsed.1
        && (parsed.0.Err? && parsed.0.error.UnsupportedFileFormatError? ==>
              r == Err(HttpException(400, Message(parsed.0.error))))
        && (!(parsed.0.Err? && parsed.0.error.UnsupportedFileFormatError?) ==>
              && r.Ok?
              && r.value.0 == CreateBaseResume(resumeId, file.filename.value,
                   OrDefault(file.contentType, "application/octet-stream"),
                   JoinPath(storage.baseDir, DiskName(fileId, file.filename.value)),
                   if parsed.0.Ok? then Some(parsed.0.value) else None, now)
              && r.value.1 == (if parsed.0.Ok? then [] else [ParseWarning]))
      ensures r.Ok? ==> store == old(store)[resumeId := r.value.0] && GetResume(resumeId) == Some(r.value.0)
      ensures r.Ok? ==> keys == if resumeId in old(store) then old(keys) else old(keys) + [resumeId]
      ensures r.Ok? && resumeId !in old(store) ==> |store| == |old(store)| + 1
    {
      sent := [];
      if file.filename.None? {
        return Err(TypeError(NoFilename)), [];
      }
      var filename := file.filename.value;
      var saved := storage.Save(file.data, filename, fileId, writeFailure);
      if saved.Err? {
        return Err(saved.error), [];
      }
      var warnings: seq<string> := [];
      var parsedData: Option<ParsedResumeData> := None;
      var parsed;
      parsed, sent := Parse(pipeline, file.data, filename, file.contentType);
      if parsed.Err? {
        if parsed.error.UnsupportedFileFormatError? {
          return Err(HttpException(400, Message(parsed.error))), sent;
        }
        warnings := warnings + [ParseWarning];
      } else {
        parsedData := Some(parsed.value);
      }
      var resume := CreateBaseResume(resumeId, filename, OrDefault(file.contentType, "application/octet-stream"),
                                     saved.value, parsedData, now);
      if resumeId !in store {
        keys := keys + [resumeId];
      }
      store := store[resumeId := resume];
      r := Ok((resume, warnings));
    }
  }

  /** A list of distinct ids has as many elements as the set of its ids. */
  lemma {:induction false} DistinctCount(ids: seq<string>)
    requires forall j, k :: 0 <= j < k < |ids| ==> ids[j] != ids[k]
    ensures |set k | 0 <= k < |ids| :: ids[k]| == |ids|
  {
    if ids != [] {
      var n := |ids| - 1;
      DistinctCount(ids[..n]);
      assert (set k | 0 <= k < |ids| :: ids[k]) == (set k | 0 <= k < n :: ids[..n][k]) + {ids[n]};
    }
  }
}
