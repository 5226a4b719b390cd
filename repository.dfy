/** The resume repository over the database tables, each table a sequence of rows. */
module Persistence {
  import opened Wrappers
  import opened JsonValue
  import opened Errors
  import opened Domain

  /** A section row of a resume or of a custom version. `order` holds whatever value the row
      was given (an integer column in the database). */
  datatype SectionRow = SectionRow(title: Json, content: Json, rawContent: Json, order: Json)

  /** A row of the resumes table, with its section rows. */
  datatype ResumeRow = ResumeRow(
    id: string,
    userId: Option<string>,
    filename: string,
    contentType: string,
    filePath: string,
    rawText: Option<string>,
    createdAt: int,
    sections: seq<SectionRow>)

  /** A row of the resume versions table, with its section rows. */
  datatype VersionRow = VersionRow(
    id: string,
    resumeId: string,
    jobDescription: string,
    coverLetter: Json,
    sections: seq<SectionRow>)

  /** Rows ordered by `created_at` descending. */
  predicate NewestFirst(rows: seq<ResumeRow>) {
    forall j, k :: 0 <= j < k < |rows| ==> rows[j].createdAt >= rows[k].createdAt
  }

  /** `WHERE user_id = :u`, or no condition when no user is given. */
  function Owned(rows: seq<ResumeRow>, userId: Option<string>): (r: seq<ResumeRow>)
    ensures userId.None? ==> r == rows
    ensures forall x :: x in r <==> x in rows && (userId.None? || x.userId == userId)
    ensures multiset(r) <= multiset(rows)
  {
    if rows == [] then []
    else
      var rest := Owned(rows[1..], userId);
      assert rows == [rows[0]] + rows[1..];
      if userId.None? || rows[0].userId == userId then [rows[0]] + rest else rest
  }

  /** One row placed into a list ordered newest first. */
  function InsertNewest(row: ResumeRow, sorted: seq<ResumeRow>): (r: seq<ResumeRow>)
    requires NewestFirst(sorted)
    ensures NewestFirst(r)
    ensures multiset(r) == multiset(sorted) + multiset{row}
    ensures |r| == |sorted| + 1
    ensures r[0] == row || (sorted != [] && r[0] == sorted[0])
  {
    if sorted == [] then [row]
    else if row.createdAt >= sorted[0].createdAt then
      NewestFirstCons(row, sorted);
      [row] + sorted
    else
      var rest := InsertNewest(row, sorted[1..]);
      InsertBehind(row, sorted, rest);
      [sorted[0]] + rest
  }

  /** A row older than the first of an ordered list goes behind it. */
  lemma InsertBehind(row: ResumeRow, sorted: seq<ResumeRow>, rest: seq<ResumeRow>)
    requires NewestFirst(sorted) && sorted != [] && row.createdAt < sorted[0].createdAt
    requires NewestFirst(rest) && multiset(rest) == multiset(sorted[1..]) + multiset{row}
    requires |rest| == |sorted| && (rest[0] == row || (|sorted| > 1 && rest[0] == sorted[1]))
    ensures NewestFirst([sorted[0]] + rest)
    ensures multiset([sorted[0]] + rest) == multiset(sorted) + multiset{row}
  {
    assert sorted == [sorted[0]] + sorted[1..];
    NewestFirstCons(sorted[0], rest);
  }

  /** A row no older than the first of an ordered list may go in front of it. */
  lemma NewestFirstCons(head: ResumeRow, rows: seq<ResumeRow>)
    requires NewestFirst(rows)
    requires rows == [] || rows[0].createdAt <= head.createdAt
    ensures NewestFirst([head] + rows)
  {
    var r := [head] + rows;
    forall j, k | 0 <= j < k < |r|
      ensures r[j].createdAt >= r[k].createdAt
    {
      assert r[k] == rows[k - 1];
      if j > 0 {
        assert r[j] == rows[j - 1];
      } else if k > 1 {
        assert rows[0].createdAt >= rows[k - 1].createdAt;
      }
    }
  }

  /** `ORDER BY created_at DESC`: one such ordering of the rows. Rows with equal creation times
      may come back from the database in any order; every such order satisfies the same
      contract. */
  function SortNewestFirst(rows: seq<ResumeRow>): (r: seq<ResumeRow>)
    ensures NewestFirst(r)
    ensures multiset(r) == multiset(rows)
  {
    if rows == [] then []
    else
      assert rows == [rows[0]] + rows[1..];
      InsertNewest(rows[0], SortNewestFirst(rows[1..]))
  }

  /** Two lists holding the same rows the same number of times hold the same rows. */
  lemma SameMembers(a: seq<ResumeRow>, b: seq<ResumeRow>)
    requires multiset(a) == multiset(b)
    ensures forall x :: x in a <==> x in b
  {
    forall x
      ensures x in a <==> x in b
    {
      assert x in a <==> x in multiset(a);
      assert x in b <==> x in multiset(b);
    }
  }

  /** The first row with the given id. */
  function FindById(rows: seq<ResumeRow>, id: string): (r: Option<ResumeRow>)
    ensures r.Some? ==> r.value in rows && r.value.id == id
    ensures r.None? <==> forall k :: 0 <= k < |rows| ==> rows[k].id != id
  {
    if rows == [] then None
    else if rows[0].id == id then Some(rows[0])
    else FindById(rows[1..], id)
  }

  /** The section row built from one item of a custom version at position `idx`: the text
      fields are copied (None when absent), and the order is the item's own "order" value when
      it has one and the position otherwise. */
  function VersionSectionRow(item: map<string, Json>, idx: int): (r: SectionRow)
    ensures r.title == Get(item, "title") && r.content == Get(item, "content")
    ensures r.rawContent == Get(item, "raw_content")
    ensures "order" in item ==> r.order == item["order"]
    ensures "order" !in item ==> r.order == JInt(idx)
  {
    SectionRow(Get(item, "title"), Get(item, "content"), Get(item, "raw_content"), GetOr(item, "order", JInt(idx)))
  }

  /** The error Python raises when `.get` is called on a value that is not a dict. */
  function NoGet(v: Json): Exception {
    AttributeError("'" + TypeName(v) + "' object has no attribute 'get'")
  }

  /** `ResumeRepository`: the resumes and resume versions tables. */
  class ResumeRepository {
    var resumes: seq<ResumeRow>
    var versions: seq<VersionRow>

    /** Resume ids are primary keys. */
    predicate Valid()
      reads this
    {
      forall j, k :: 0 <= j < k < |resumes| ==> resumes[j].id != resumes[k].id
    }

    constructor(resumes: seq<ResumeRow>, versions: seq<VersionRow>)
      requires forall j, k :: 0 <= j < k < |resumes| ==> resumes[j].id != resumes[k].id
      ensures Valid()
      ensures this.resumes == resumes && this.versions == versions
    {
      this.resumes := resumes;
      this.versions := versions;
    }

    /** `ResumeRepository.create`: adds the resume's row; its raw text is the parse result's
        text when there is one and None otherwise. The resume's id is fresh. */
    method Create(resume: BaseResume) returns (row: ResumeRow)
      requires Valid()
      requires forall k :: 0 <= k < |resumes| ==> resumes[k].id != resume.id
      modifies this
      ensures Valid()
      ensures row.rawText == if resume.parsedData.Some? then Some(resume.parsedData.value.rawText) else None
      ensures row == ResumeRow(resume.id, None, resume.filename, resume.contentType, resume.filePath,
                               row.rawText, resume.createdAt, [])
      ensures resumes == old(resumes) + [row] && versions == old(versions)
      ensures GetById(resume.id) == Some(row)
    {
      var rawText := if resume.parsedData.Some? then Some(resume.parsedData.value.rawText) else None;
      row := ResumeRow(resume.id, None, resume.filename, resume.contentType, resume.filePath,
                       rawText, resume.createdAt, []);
      resumes := resumes + [row];
      assert resumes[|resumes| - 1] == row;
    }

    /** `ResumeRepository.get_by_id`: the row with that id, or None when there is none. */
    function GetById(id: string): (r: Option<ResumeRow>)
      requires Valid()
      reads this
      ensures r.Some? ==> r.value.id == id && r.value in resumes
      ensures r.None? <==> forall k :: 0 <= k < |resumes| ==> resumes[k].id != id
      ensures forall k :: 0 <= k < |resumes| && resumes[k].id == id ==> r == Some(resumes[k])
    {
      FindById(resumes, id)
    }

    /** `ResumeRepository.list_by_user_id`: the user's rows, or every row when no user is given,
        newest first. */
    function ListByUserId(userId: Option<string>): (r: seq<ResumeRow>)
      reads this
      ensures NewestFirst(r)
      ensures multiset(r) == multiset(Owned(resumes, userId))
      ensures forall x :: x in r <==> x in resumes && (userId.None? || x.userId == userId)
    {
      var owned := Owned(resumes, userId);
      var sorted := SortNewestFirst(owned);
      SameMembers(sorted, owned);
      sorted
    }

    /** `ResumeRepository.create_version`: a version row with one section row per item, in list
        order. The loop calls `.get` on each item, so the first item that is not a dict raises
        and no version is kept. */
    method CreateVersion(resumeId: string, jobDescription: string, customSections: seq<Json>,
                         coverLetter: Json, versionId: string) returns (r: Result<VersionRow, Exception>)
      modifies this
      ensures r.Ok? <==> forall k :: 0 <= k < |customSections| ==> customSections[k].JObj?
      ensures r.Ok? ==>
        (r.value.id == versionId && r.value.resumeId == resumeId
         && r.value.jobDescription == jobDescription && r.value.coverLetter == coverLetter)
      ensures r.Ok? ==>
        (|r.value.sections| == |customSections|
         && forall k :: 0 <= k < |customSections| ==>
              r.value.sections[k] == VersionSectionRow(customSections[k].fields, k))
      ensures r.Err? ==>
        (exists i :: 0 <= i < |customSections| && !customSections[i].JObj?
           && (forall k :: 0 <= k < i ==> customSections[k].JObj?) && r.error == NoGet(customSections[i]))
      ensures r.Ok? ==> versions == old(versions) + [r.value]
      ensures r.Err? ==> versions == old(versions)
      ensures resumes == old(resumes)
    {
      var rows: seq<SectionRow> := [];
      var idx := 0;
      while idx < |customSections|
        invariant 0 <= idx <= |customSections|
        invariant forall k :: 0 <= k < idx ==> customSections[k].JObj?
        invariant |rows| == idx
        invariant forall k :: 0 <= k < idx ==> rows[k] == VersionSectionRow(customSections[k].fields, k)
      {
        var item := customSections[idx];
        if !item.JObj? {
          return Err(NoGet(item));
        }
        rows := rows + [VersionSectionRow(item.fields, idx)];
        idx := idx + 1;
      }
      var version := VersionRow(versionId, resumeId, jobDescription, coverLetter, rows);
      versions := versions + [version];
      r := Ok(version);
    }
  }
}
