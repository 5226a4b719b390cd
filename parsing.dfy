/** Turning the LLM's JSON reply into parsed resume data (the mapper), and the parsing service
    that prompts the LLM and maps its reply. */
module Parsing {
  import opened Wrappers
  import opened JsonValue
  import opened Errors
  import opened Domain

  /** The LLM's `generate_json(prompt)`: the decoded reply, or what it raised. */
  type LlmCall = string -> Result<Json, Exception>
  /** `build_resume_parsing_prompt`: a text template around the resume text. */
  type PromptBuilder = string -> string

  const NonDictResponse: string := "LLM returned non-dict response for resume parsing"

  /** `llm_response.get("sections") or []`, kept only when it is a list: the items the mapper
      walks. A missing or falsy value is replaced by [], any other non-list value yields none. */
  function SectionItems(response: map<string, Json>): (r: seq<Json>)
    ensures !Truthy(Get(response, "sections")) ==> r == []
    ensures !Get(response, "sections").JArr? ==> r == []
    ensures Get(response, "sections").JArr? ==> r == Get(response, "sections").items
  {
    var raw := Get(response, "sections");
    var data := if Truthy(raw) then raw else JArr([]);
    if data.JArr? then data.items else []
  }

  /** The section built from one dict item at position `idx`: the three text fields are copied
      as they are (None when the key is absent) and the order is the position. */
  function MakeSection(item: map<string, Json>, idx: int): (s: Section)
    ensures s.order == Some(idx)
    ensures s.title == Get(item, "title") && s.content == Get(item, "content")
    ensures s.rawContent == Get(item, "raw_content")
  {
    Section(Get(item, "title"), Get(item, "content"), Get(item, "raw_content"), Some(idx))
  }

  /** The sections of a list of items: one per dict item, in list order, ordered by the item's
      index; items that are not dicts are skipped. */
  function SectionsOf(items: seq<Json>): (r: seq<Section>)
    ensures |r| <= |items|
    ensures forall k :: 0 <= k < |r| ==>
      r[k].order.Some? && 0 <= r[k].order.value < |items| && items[r[k].order.value].JObj?
      && r[k] == MakeSection(items[r[k].order.value].fields, r[k].order.value)
    ensures forall j, k :: 0 <= j < k < |r| ==> r[j].order.value < r[k].order.value
    decreases |items|
  {
    if items == [] then []
    else
      var n := |items| - 1;
      var front := SectionsOf(items[..n]);
      assert forall k :: 0 <= k < |front| ==> items[..n][front[k].order.value] == items[front[k].order.value];
      front + (if items[n].JObj? then [MakeSection(items[n].fields, n)] else [])
  }

  /** The number of dict items in a list. */
  function DictCount(items: seq<Json>): nat {
    if items == [] then 0
    else DictCount(items[..|items| - 1]) + (if items[|items| - 1].JObj? then 1 else 0)
  }

  /** Exactly one section per dict item. */
  lemma {:induction false} SectionsCount(items: seq<Json>)
    ensures |SectionsOf(items)| == DictCount(items)
  {
    if items != [] {
      SectionsCount(items[..|items| - 1]);
    }
  }

  /** No dict item is lost: the item at index `i` gives the section of order `i`. */
  lemma {:induction false} DictItemKept(items: seq<Json>, i: int)
    requires 0 <= i < |items| && items[i].JObj?
    ensures MakeSection(items[i].fields, i) in SectionsOf(items)
  {
    var n := |items| - 1;
    if i < n {
      DictItemKept(items[..n], i);
      assert items[..n][i] == items[i];
    }
  }

  /** When every item is a dict, the orders are 0, 1, ..., N-1. */
  lemma {:induction false} AllDictsOrders(items: seq<Json>)
    requires forall k :: 0 <= k < |items| ==> items[k].JObj?
    ensures |SectionsOf(items)| == |items|
    ensures forall k :: 0 <= k < |items| ==> SectionsOf(items)[k].order == Some(k)
  {
    if items != [] {
      AllDictsOrders(items[..|items| - 1]);
    }
  }

  /** `map_llm_response_to_parsed_data`, as a value: a non-dict reply is a ValueError; otherwise
      the sections of the reply's items, the caller's text and the reply kept as `llm_raw`. */
  function MapResponse(response: Json, rawText: string): (r: Result<ParsedResumeData, Exception>)
    ensures !response.JObj? ==> r == Err(ValueError(NonDictResponse))
    ensures response.JObj? ==> r == Ok(ParsedResumeData(rawText, SectionsOf(SectionItems(response.fields)),
                                                        map["llm_raw" := response]))
  {
    if !response.JObj? then Err(ValueError(NonDictResponse))
    else Ok(ParsedResumeData(rawText, SectionsOf(SectionItems(response.fields)), map["llm_raw" := response]))
  }

  /** `map_llm_response_to_parsed_data`: the loop over the enumerated items, appending a
      section for each dict item. */
  method MapLlmResponse(response: Json, rawText: string) returns (r: Result<ParsedResumeData, Exception>)
    ensures r == MapResponse(response, rawText)
    ensures r.Ok? <==> response.JObj?
    ensures r.Ok? ==> r.value.rawText == rawText && r.value.meta == map["llm_raw" := response]
  {
    if !response.JObj? {
      return Err(ValueError(NonDictResponse));
    }
    var sections: seq<Section> := [];
    var sectionsData := Get(response.fields, "sections");
    if !Truthy(sectionsData) {
      sectionsData := JArr([]);
    }
    if sectionsData.JArr? {
      var items := sectionsData.items;
      var idx := 0;
      while idx < |items|
        invariant 0 <= idx <= |items|
        invariant sections == SectionsOf(items[..idx])
      {
        var item := items[idx];
        assert items[..idx + 1][..idx] == items[..idx];
        if item.JObj? {
          sections := sections + [MakeSection(item.fields, idx)];
        }
        idx := idx + 1;
      }
      assert items[..idx] == items;
    }
    r := Ok(ParsedResumeData(rawText, sections, map["llm_raw" := response]));
  }

  /** A dict reply whose `sections` is missing, falsy or not a list maps to no sections. */
  lemma NoListNoSections(response: map<string, Json>, rawText: string)
    requires !Truthy(Get(response, "sections")) || !Get(response, "sections").JArr?
    ensures MapResponse(JObj(response), rawText) == Ok(ParsedResumeData(rawText, [], map["llm_raw" := JObj(response)]))
  {
  }

  /** `ParsingService.parse`: build the prompt, call the LLM once, then map its reply. The debug
      line before the mapper evaluates `len(llm_response.get("sections", []))`, so a reply that
      is not a dict fails on `.get`, and a `sections` value without a length fails on `len`.
      The second result is the list of prompts sent to the LLM. */
  function ParseText(rawText: string, llm: LlmCall, buildPrompt: PromptBuilder): (r: (Result<ParsedResumeData, Exception>, seq<string>))
    ensures r.1 == [buildPrompt(rawText)]
    ensures llm(buildPrompt(rawText)).Err? ==> r.0 == Err(llm(buildPrompt(rawText)).error)
    ensures r.0.Ok? <==>
      llm(buildPrompt(rawText)).Ok? && llm(buildPrompt(rawText)).value.JObj?
      && HasLen(GetOr(llm(buildPrompt(rawText)).value.fields, "sections", JArr([])))
    ensures r.0.Ok? ==> r.0 == MapResponse(llm(buildPrompt(rawText)).value, rawText)
    ensures r.0.Ok? ==> r.0.value.rawText == rawText
  {
    var prompt := buildPrompt(rawText);
    var reply := llm(prompt);
    var outcome :=
      match reply
      case Err(e) => Err(e)
      case Ok(response) =>
        if !response.JObj? then
          Err(AttributeError("'" + TypeName(response) + "' object has no attribute 'get'"))
        else
          var shown := GetOr(response.fields, "sections", JArr([]));
          if !HasLen(shown) then Err(TypeError("object of type '" + TypeName(shown) + "' has no len()"))
          else MapResponse(response, rawText);
    (outcome, [prompt])
  }

  /** A reply that is not a dict fails on `.get` in the debug line, before the mapper runs. */
  lemma ParseNonDictReply(rawText: string, llm: LlmCall, buildPrompt: PromptBuilder)
    requires llm(buildPrompt(rawText)).Ok? && !llm(buildPrompt(rawText)).value.JObj?
    ensures ParseText(rawText, llm, buildPrompt).0 ==
      Err(AttributeError("'" + TypeName(llm(buildPrompt(rawText)).value) + "' object has no attribute 'get'"))
  {
  }

  /** A dict reply whose `sections` is null or a number makes parsing fail with a TypeError,
      although the mapper alone would have accepted it with no sections. */
  lemma EagerLenFails(rawText: string, llm: LlmCall, buildPrompt: PromptBuilder)
    requires llm(buildPrompt(rawText)).Ok? && llm(buildPrompt(rawText)).value.JObj?
    requires var fields := llm(buildPrompt(rawText)).value.fields;
      "sections" in fields && (fields["sections"].JNull? || fields["sections"].JInt? || fields["sections"].JFloat?)
    ensures ParseText(rawText, llm, buildPrompt).0.Err?
    ensures ParseText(rawText, llm, buildPrompt).0.error.TypeError?
    ensures MapResponse(llm(buildPrompt(rawText)).value, rawText).Ok?
    ensures MapResponse(llm(buildPrompt(rawText)).value, rawText).value.sections == []
  {
    var fields := llm(buildPrompt(rawText)).value.fields;
    NoListNoSections(fields, rawText);
  }

  /** A dict reply without `sections`, or with an empty list, parses to no sections. */
  lemma ParseWithoutSections(rawText: string, llm: LlmCall, buildPrompt: PromptBuilder)
    requires llm(buildPrompt(rawText)).Ok? && llm(buildPrompt(rawText)).value.JObj?
    requires var fields := llm(buildPrompt(rawText)).value.fields;
      "sections" !in fields || fields["sections"] == JArr([])
    ensures ParseText(rawText, llm, buildPrompt).0.Ok?
    ensures ParseText(rawText, llm, buildPrompt).0.value.sections == []
  {
    NoListNoSections(llm(buildPrompt(rawText)).value.fields, rawText);
  }
}
