/** The LLM gateway: the response sanitiser, the Gemini and OpenAI clients and the factory
    that picks one from the settings. The provider SDK and the JSON decoder are parameters. */
module LlmClient {
  import opened Wrappers
  import opened Errors
  import opened JsonValue
  import opened Text
  import Config

  predicate IsBacktick(c: char) {
    c == '`'
  }

  predicate NoBacktick(s: string) {
    forall k :: 0 <= k < |s| ==> s[k] != '`'
  }

  /** Three backticks start at index `i`. */
  predicate FenceAt(s: string, i: int) {
    0 <= i && i + 3 <= |s| && s[i] == '`' && s[i + 1] == '`' && s[i + 2] == '`'
  }

  /** `^` under `re.MULTILINE`: the start of the text or just after a '\n'. */
  predicate AtLineStart(s: string, i: nat)
    requires i <= |s|
  {
    i == 0 || s[i - 1] == '\n'
  }

  /** The end of the longest run of `\s` characters starting at `j`. */
  function SpaceRunEnd(s: string, j: nat): (k: nat)
    requires j <= |s|
    ensures j <= k <= |s|
    ensures forall m :: j <= m < k ==> IsSpace(s[m])
    ensures k == |s| || !IsSpace(s[k])
    decreases |s| - j
  {
    if j < |s| && IsSpace(s[j]) then SpaceRunEnd(s, j + 1) else j
  }

  /** Where a match of the opening-fence pattern ^```(?:json)?\s*\n? that begins at the fence
      at `i` ends. The optional "json" is taken whenever it is there; the trailing `\n?` adds
      nothing, because the greedy `\s*` has already taken every newline. */
  function OpenFenceEnd(s: string, i: nat): (e: nat)
    requires FenceAt(s, i)
    ensures i + 3 <= e <= |s|
  {
    var j := if i + 7 <= |s| && s[i + 3..i + 7] == "json" then i + 7 else i + 3;
    SpaceRunEnd(s, j)
  }

  /** `re.sub(r'^```(?:json)?\s*\n?', '', s[i..], flags=re.MULTILINE)`, scanning from `i` on
      the original text: a fence at a line start is removed with what follows it, every other
      character is copied. */
  function StripOpenFences(s: string, i: nat): (r: string)
    requires i <= |s|
    ensures |r| <= |s| - i
    decreases |s| - i
  {
    if i == |s| then ""
    else if AtLineStart(s, i) && FenceAt(s, i) then StripOpenFences(s, OpenFenceEnd(s, i))
    else [s[i]] + StripOpenFences(s, i + 1)
  }

  /** The last '\n' in `s[j..k]`, or -1 when there is none. */
  function LastNewline(s: string, j: nat, k: nat): (p: int)
    requires j <= k <= |s|
    ensures p == -1 || (j <= p < k && s[p] == '\n')
    ensures forall m :: j <= m < k && p < m ==> s[m] != '\n'
    decreases k - j
  {
    if k == j then -1
    else if s[k - 1] == '\n' then k - 1
    else LastNewline(s, j, k - 1)
  }

  /** Where a match of the closing-fence pattern \n?```\s*$ (MULTILINE) tried at `i` ends, if
      it matches there. The optional newline is taken when present; `\s*` then gives back
      characters until `$` holds: at the end of the text, or just before a '\n'. */
  function CloseFenceMatch(s: string, i: nat): (r: Option<nat>)
    requires i < |s|
    ensures r.Some? ==> i < r.value <= |s|
    ensures r.Some? ==> FenceAt(s, i) || (s[i] == '\n' && FenceAt(s, i + 1))
  {
    var j := if s[i] == '\n' then i + 1 else i;
    if !FenceAt(s, j) then None
    else
      var k := SpaceRunEnd(s, j + 3);
      if k == |s| then Some(k)
      else
        var p := LastNewline(s, j + 3, k);
        if p < 0 then None else Some(p)
  }

  /** `re.sub(r'\n?```\s*$', '', s[i..], flags=re.MULTILINE)`, scanning from `i`. */
  function StripCloseFences(s: string, i: nat): (r: string)
    requires i <= |s|
    ensures |r| <= |s| - i
    decreases |s| - i
  {
    if i == |s| then ""
    else
      match CloseFenceMatch(s, i)
      case Some(e) => StripCloseFences(s, e)
      case None => [s[i]] + StripCloseFences(s, i + 1)
  }

  /** Drops one pair of matching quotes around the text when what they wrap starts a JSON
      object or array; any other quoted text is kept as it is. */
  function UnwrapQuotes(t: string): (r: string)
    ensures |r| <= |t|
    ensures r != t ==> |t| > 2 && (t[0] == '\'' || t[0] == '"') && t[|t| - 1] == t[0] && r == t[1..|t| - 1]
    ensures r != t ==> r[0] == '{' || r[0] == '['
  {
    if |t| > 2 && (t[0] == '\'' || t[0] == '"') && t[|t| - 1] == t[0] && (t[1] == '{' || t[1] == '[') then
      t[1..|t| - 1]
    else t
  }

  /** The steps after the fence rules: strip, strip backticks, strip, unwrap quotes, strip. */
  function Polish(u: string): (r: string)
    ensures Stripped(r) && |r| <= |u|
  {
    Strip(UnwrapQuotes(Strip(StripBy(Strip(u), IsBacktick))))
  }

  /** `GeminiClient._clean_json_response`: empty text is returned as it is; other text loses
      markdown fences, surrounding whitespace and backticks, and quotes wrapped around JSON. */
  function CleanJsonResponse(text: string): (r: string)
    ensures text == "" ==> r == ""
    ensures Stripped(r) && |r| <= |text|
  {
    if text == "" then text
    else Polish(StripCloseFences(StripOpenFences(text, 0), 0))
  }

  // ----- the fence rules leave fence-free stretches alone -----

  lemma {:induction false} OpenFencesSkip(s: string, i: nat, k: nat)
    requires i <= k <= |s|
    requires forall m :: i <= m < k ==> !FenceAt(s, m)
    ensures StripOpenFences(s, i) == s[i..k] + StripOpenFences(s, k)
    decreases k - i
  {
    if i < k {
      OpenFenceStep(s, i);
      OpenFencesSkip(s, i + 1, k);
      SliceCons(s, i, k, StripOpenFences(s, k));
    }
  }

  lemma OpenFenceStep(s: string, i: nat)
    requires i < |s| && !FenceAt(s, i)
    ensures StripOpenFences(s, i) == [s[i]] + StripOpenFences(s, i + 1)
  {
  }

  lemma CloseFenceStep(s: string, i: nat)
    requires i < |s| && !FenceAt(s, i) && !FenceAt(s, i + 1)
    ensures StripCloseFences(s, i) == [s[i]] + StripCloseFences(s, i + 1)
  {
    assert CloseFenceMatch(s, i).None?;
  }

  /** Peeling the first character off a slice followed by more text. */
  lemma SliceCons(s: string, i: nat, k: nat, rest: string)
    requires i < k <= |s|
    ensures [s[i]] + (s[i + 1..k] + rest) == s[i..k] + rest
  {
    assert s[i..k] == [s[i]] + s[i + 1..k];
  }

  lemma {:induction false} CloseFencesSkip(s: string, i: nat, k: nat)
    requires i <= k <= |s|
    requires forall m :: i <= m < k ==> !FenceAt(s, m)
    requires k < |s| ==> !FenceAt(s, k)
    ensures StripCloseFences(s, i) == s[i..k] + StripCloseFences(s, k)
    decreases k - i
  {
    if i < k {
      assert !FenceAt(s, i) && !FenceAt(s, i + 1);
      CloseFenceStep(s, i);
      CloseFencesSkip(s, i + 1, k);
      SliceCons(s, i, k, StripCloseFences(s, k));
    }
  }

  /** Text without any triple backtick passes both fence rules unchanged. */
  lemma FencesUnchanged(s: string)
    requires forall m :: !FenceAt(s, m)
    ensures StripOpenFences(s, 0) == s
    ensures StripCloseFences(s, 0) == s
  {
    OpenFencesSkip(s, 0, |s|);
    CloseFencesSkip(s, 0, |s|);
    assert s[0..|s|] == s;
  }

  lemma NoBacktickNoFence(s: string)
    requires NoBacktick(s)
    ensures forall m :: !FenceAt(s, m)
  {
  }

  /** After the fence rules, text without backticks whose stripped form does not start with a
      quote is only stripped. */
  lemma PolishPlain(u: string)
    requires NoBacktick(u)
    requires Strip(u) == [] || (Strip(u)[0] != '\'' && Strip(u)[0] != '"')
    ensures Polish(u) == Strip(u)
  {
    var t := Strip(u);
    StripByKeeps(u, IsSpace, c => c != '`');
    StripByAbsent(t, IsBacktick);
    StripIdempotent(u);
    StripIdempotent(t);
  }

  // ----- what the sanitiser does to the reply shapes it is written for -----

  /** Text without backticks that does not start with a quote is only stripped. */
  lemma CleanPlainText(s: string)
    requires NoBacktick(s)
    requires Strip(s) == [] || (Strip(s)[0] != '\'' && Strip(s)[0] != '"')
    ensures CleanJsonResponse(s) == Strip(s)
  {
    if s != "" {
      NoBacktickNoFence(s);
      FencesUnchanged(s);
      PolishPlain(s);
    } else {
      assert |Strip(s)| <= 0;
    }
  }

  /** A JSON document inside a markdown code block, "```" or "```json" on its own line,
      comes out as the document alone. */
  lemma CleanFencedJson(tag: string, j: string)
    requires tag == "" || tag == "json"
    requires j != [] && (j[0] == '{' || j[0] == '[') && NoBacktick(j)
    ensures CleanJsonResponse("```" + tag + "\n" + j + "\n```") == Strip(j)
  {
    FencedOpen(tag, j);
    FencedRest(j);
  }

  /** The opening-fence rule removes the opening line and the closing fence of a fenced reply. */
  lemma FencedOpen(tag: string, j: string)
    requires tag == "" || tag == "json"
    requires j != [] && (j[0] == '{' || j[0] == '[') && NoBacktick(j)
    ensures StripOpenFences("```" + tag + "\n" + j + "\n```", 0) == j + "\n"
  {
    var s := "```" + tag + "\n" + j + "\n```";
    var a := 4 + |tag|;
    var c := a + |j| + 1;
    OpenFenceAtStart(s, tag, j);
    OpenFencesSkip(s, a, c);
    FencedTail(s, tag, j);
    OpenFenceAtEnd(s, c);
  }

  /** What is left of a fenced reply after the opening-fence rule becomes the stripped document. */
  lemma FencedRest(j: string)
    requires j != [] && (j[0] == '{' || j[0] == '[') && NoBacktick(j)
    ensures StripCloseFences(j + "\n", 0) == j + "\n"
    ensures Polish(j + "\n") == Strip(j)
  {
    assert NoBacktick(j + "\n");
    NoBacktickNoFence(j + "\n");
    FencesUnchanged(j + "\n");
    PolishTrailingNewline(j);
  }

  lemma PolishTrailingNewline(j: string)
    requires j != [] && (j[0] == '{' || j[0] == '[') && NoBacktick(j)
    ensures Polish(j + "\n") == Strip(j)
  {
    PolishTrailingSpace(j, '\n');
  }

  lemma PolishTrailingSpace(j: string, c: char)
    requires j != [] && !IsSpace(j[0]) && j[0] != '\'' && j[0] != '"' && NoBacktick(j)
    requires IsSpace(c) && c != '`'
    ensures Polish(j + [c]) == Strip(j)
  {
    var u := j + [c];
    assert NoBacktick(u) by {
      forall k | 0 <= k < |u|
        ensures u[k] != '`'
      {
        if k < |j| {
          assert u[k] == j[k];
        }
      }
    }
    assert Strip(u) == Strip(j) by {
      StripAppendSpace(j, c);
    }
    assert Strip(j)[0] == j[0] by {
      StripKeepsFirst(j);
    }
    PolishPlain(u);
  }

  lemma OpenFenceAtStart(s: string, tag: string, j: string)
    requires tag == "" || tag == "json"
    requires j != [] && (j[0] == '{' || j[0] == '[') && NoBacktick(j)
    requires s == "```" + tag + "\n" + j + "\n```"
    ensures StripOpenFences(s, 0) == StripOpenFences(s, 4 + |tag|)
    ensures forall m :: 4 + |tag| <= m < 4 + |tag| + |j| + 1 ==> !FenceAt(s, m)
  {
    var t := 3 + |tag|;
    FencedLayout(s, tag, j);
    OpenFenceEndAfterTag(s, t);
    NoFenceInBody(s, t + 1, j);
  }

  /** Where the parts of a fenced reply sit. */
  lemma FencedLayout(s: string, tag: string, j: string)
    requires tag == "" || tag == "json"
    requires j != []
    requires s == "```" + tag + "\n" + j + "\n```"
    ensures |s| == 8 + |tag| + |j| && FenceAt(s, 0)
    ensures s[3 + |tag|] == '\n' && s[4 + |tag|..4 + |tag| + |j|] == j && s[4 + |tag| + |j|] == '\n'
    ensures tag == "json" ==> s[3..7] == "json"
    ensures tag == "" ==> s[3] == '\n'
  {
    var a := 4 + |tag|;
    assert s == ("```" + tag + "\n") + j + "\n```";
    assert s[a..a + |j|] == j;
  }

  lemma FencedTail(s: string, tag: string, j: string)
    requires s == "```" + tag + "\n" + j + "\n```"
    ensures var c := 5 + |tag| + |j|;
      |s| == c + 3 && s[4 + |tag|..c] == j + "\n" && s[c - 1] == '\n' && s[c..] == "```"
  {
    var c := 5 + |tag| + |j|;
    assert s == ("```" + tag + "\n") + (j + "\n") + "```";
  }

  /** The opening fence at the start, with or without "json", ends right after its newline. */
  lemma OpenFenceEndAfterTag(s: string, t: nat)
    requires FenceAt(s, 0) && t + 1 < |s|
    requires (t == 7 && s[3..7] == "json") || (t == 3 && s[3] == '\n')
    requires s[t] == '\n' && !IsSpace(s[t + 1])
    ensures StripOpenFences(s, 0) == StripOpenFences(s, t + 1)
  {
    assert 7 <= |s| && s[3..7] == "json" ==> s[3] == 'j';
    SpaceRunStep(s, t);
    assert OpenFenceEnd(s, 0) == t + 1;
  }

  /** One whitespace character followed by a non-space is a run of length one. */
  lemma SpaceRunStep(s: string, t: nat)
    requires t + 1 < |s| && IsSpace(s[t]) && !IsSpace(s[t + 1])
    ensures SpaceRunEnd(s, t) == t + 1
  {
    assert SpaceRunEnd(s, t) == SpaceRunEnd(s, t + 1);
  }

  /** A backtick-free stretch followed by a newline holds no fence start. */
  lemma NoFenceInBody(s: string, a: nat, j: string)
    requires a + |j| < |s| && s[a..a + |j|] == j && s[a + |j|] == '\n' && NoBacktick(j)
    ensures forall m :: a <= m < a + |j| + 1 ==> !FenceAt(s, m)
  {
    forall m | a <= m < a + |j| + 1
      ensures !FenceAt(s, m)
    {
      if m < a + |j| {
        assert s[m] == j[m - a];
      }
    }
  }

  lemma OpenFenceAtEnd(s: string, c: nat)
    requires c >= 1 && |s| == c + 3 && s[c - 1] == '\n' && s[c..] == "```"
    ensures StripOpenFences(s, c) == ""
  {
    assert FenceAt(s, c) && AtLineStart(s, c);
    assert OpenFenceEnd(s, c) == |s|;
  }

  /** Non-empty text without a fence start is only polished. */
  lemma CleanWithoutFences(s: string)
    requires s != [] && forall m :: !FenceAt(s, m)
    ensures CleanJsonResponse(s) == Polish(s)
  {
    FencesUnchanged(s);
  }

  /** Polishing text that starts like a JSON document and has no backtick only strips it. */
  lemma PolishJson(j: string)
    requires j != [] && (j[0] == '{' || j[0] == '[') && NoBacktick(j)
    ensures Strip(UnwrapQuotes(Strip(j))) == Strip(j)
  {
    StripJsonShape(j);
    assert UnwrapQuotes(Strip(j)) == Strip(j);
    StripIdempotent(j);
  }

  /** Backticks around backtick-free text that starts with '{' or '[' are stripped off. */
  lemma StripBackticksAround(j: string)
    requires j != [] && (j[0] == '{' || j[0] == '[') && NoBacktick(j)
    ensures StripBy("`" + j + "`", IsBacktick) == j
  {
    StripBacktickPair(j, '`');
  }

  lemma StripBacktickPair(j: string, c: char)
    requires IsBacktick(c) && j != [] && !IsBacktick(j[0]) && !IsBacktick(j[|j| - 1])
    ensures StripBy([c] + j + [c], IsBacktick) == j
  {
    var s := [c] + j + [c];
    assert TrimLeftBy(s, IsBacktick) == j + [c] by {
      assert s[1..] == j + [c];
      assert TrimLeftBy(s, IsBacktick) == TrimLeftBy(s[1..], IsBacktick);
    }
    assert TrimRightBy(j + [c], IsBacktick) == j by {
      assert (j + [c])[..|j|] == j;
      assert TrimRightBy(j + [c], IsBacktick) == TrimRightBy(j, IsBacktick);
    }
  }

  /** A JSON document wrapped in single backticks comes out without them. */
  lemma CleanBacktickWrapped(j: string)
    requires j != [] && (j[0] == '{' || j[0] == '[') && NoBacktick(j)
    ensures CleanJsonResponse("`" + j + "`") == Strip(j)
  {
    var s := "`" + j + "`";
    BacktickWrappedNoFence(j);
    StripBackticksAround(j);
    PolishJson(j);
    CleanBackticked(s, j);
  }

  lemma CleanBackticked(s: string, j: string)
    requires |s| >= 2 && s[0] == '`' && s[|s| - 1] == '`' && forall m :: !FenceAt(s, m)
    requires StripBy(s, IsBacktick) == j
    requires Strip(UnwrapQuotes(Strip(j))) == Strip(j)
    ensures CleanJsonResponse(s) == Strip(j)
  {
    BacktickedPolish(s, j);
    CleanWithoutFences(s);
  }

  lemma BacktickedPolish(s: string, j: string)
    requires |s| >= 2 && s[0] == '`' && s[|s| - 1] == '`'
    requires StripBy(s, IsBacktick) == j
    requires Strip(UnwrapQuotes(Strip(j))) == Strip(j)
    ensures Polish(s) == Strip(j)
  {
    assert Strip(s) == s by {
      assert !IsSpace(s[0]) && !IsSpace(s[|s| - 1]);
      StripByStripped(s, IsSpace);
    }
  }

  lemma BacktickWrappedNoFence(j: string)
    requires j != [] && (j[0] == '{' || j[0] == '[') && NoBacktick(j)
    ensures forall m :: !FenceAt("`" + j + "`", m)
  {
    var s := "`" + j + "`";
    forall m ensures !FenceAt(s, m) {
      if 0 < m <= |j| - 1 {
        assert s[m] == j[m - 1];
      } else if m == 0 {
        assert s[1] == j[0];
      }
    }
  }

  /** Text between two equal quotes, without backticks, is left whole by the fence and strip
      steps; only the quote rule can change it. */
  lemma CleanQuoted(s: string)
    requires |s| >= 2 && (s[0] == '\'' || s[0] == '"') && s[|s| - 1] == s[0] && NoBacktick(s)
    ensures CleanJsonResponse(s) == Strip(UnwrapQuotes(s))
  {
    NoBacktickNoFence(s);
    QuotedPolish(s);
    CleanWithoutFences(s);
  }

  lemma QuotedPolish(s: string)
    requires |s| >= 2 && (s[0] == '\'' || s[0] == '"') && s[|s| - 1] == s[0] && NoBacktick(s)
    ensures Polish(s) == Strip(UnwrapQuotes(s))
  {
    StripByStripped(s, IsSpace);
    StripByAbsent(s, IsBacktick);
    PolishUnstripped(s);
  }

  /** Polishing text that neither strip changes leaves only the quote rule and the last strip. */
  lemma PolishUnstripped(s: string)
    requires Strip(s) == s && StripBy(s, IsBacktick) == s
    ensures Polish(s) == Strip(UnwrapQuotes(s))
  {
  }

  lemma QuoteWrapShape(q: char, x: string)
    requires q == '\'' || q == '"'
    requires NoBacktick(x)
    ensures var s := [q] + x + [q];
      |s| >= 2 && s[0] == q && s[|s| - 1] == q && NoBacktick(s) && s[1..|s| - 1] == x
  {
    var s := [q] + x + [q];
    assert s[1..|s| - 1] == x;
    forall m | 0 <= m < |s| ensures s[m] != '`' {
      if 0 < m < |s| - 1 {
        assert s[m] == x[m - 1];
      }
    }
  }

  /** A JSON document wrapped in a pair of single or double quotes comes out without them. */
  lemma CleanQuoteWrapped(q: char, j: string)
    requires q == '\'' || q == '"'
    requires j != [] && (j[0] == '{' || j[0] == '[') && NoBacktick(j)
    ensures CleanJsonResponse([q] + j + [q]) == Strip(j)
  {
    QuoteWrapShape(q, j);
    CleanQuoted([q] + j + [q]);
  }

  /** Quoted text that is not a JSON object or array keeps its quotes. */
  lemma CleanQuotedScalarKept(q: char, x: string)
    requires q == '\'' || q == '"'
    requires NoBacktick(x) && (x == [] || (x[0] != '{' && x[0] != '['))
    ensures CleanJsonResponse([q] + x + [q]) == [q] + x + [q]
  {
    var s := [q] + x + [q];
    QuoteWrapShape(q, x);
    CleanQuoted(s);
    QuotedScalarShape(q, x);
  }

  lemma QuotedScalarShape(q: char, x: string)
    requires q == '\'' || q == '"'
    requires x == [] || (x[0] != '{' && x[0] != '[')
    ensures Strip(UnwrapQuotes([q] + x + [q])) == [q] + x + [q]
  {
    var s := [q] + x + [q];
    assert x != [] ==> s[1] == x[0];
    assert UnwrapQuotes(s) == s;
    StripByStripped(s, IsSpace);
  }

  /** Stripped JSON text without backticks is a fixed point of the sanitiser. */
  lemma CleanJsonFixedPoint(x: string)
    requires x != [] && (x[0] == '{' || x[0] == '[') && NoBacktick(x) && Stripped(x)
    ensures CleanJsonResponse(x) == x
  {
    StripByStripped(x, IsSpace);
    CleanPlainText(x);
  }

  /** Sanitising is idempotent on what it makes of a fenced reply. */
  lemma CleanFencedTwice(tag: string, j: string)
    requires tag == "" || tag == "json"
    requires j != [] && (j[0] == '{' || j[0] == '[') && NoBacktick(j)
    ensures CleanJsonResponse(CleanJsonResponse("```" + tag + "\n" + j + "\n```")) ==
            CleanJsonResponse("```" + tag + "\n" + j + "\n```")
  {
    CleanFencedJson(tag, j);
    StripJsonShape(j);
    CleanJsonFixedPoint(Strip(j));
  }

  /** Stripping JSON text keeps its first character and adds no backtick. */
  lemma StripJsonShape(j: string)
    requires j != [] && (j[0] == '{' || j[0] == '[') && NoBacktick(j)
    ensures Strip(j) != [] && Strip(j)[0] == j[0] && NoBacktick(Strip(j))
  {
    StripKeepsFirst(j);
    StripByKeeps(j, IsSpace, c => c != '`');
  }

  // ----- the clients -----

  /** The reply text a provider gives for a model and a prompt, or the SDK's error. */
  type Backend = (Option<string>, string) -> Result<string, Exception>

  /** `json.loads`: the decoded value, or the decode error's message. */
  type Decoder = string -> Result<Json, string>

  datatype LlmClient =
    | GeminiClient(model: Option<string>)
    | OpenAIClient(apiKey: string, openaiModel: string)

  /** `GeminiClient(model)`: an explicit, non-empty model wins over GEMINI_MODEL. */
  function NewGeminiClient(model: Option<string>, settings: Config.Settings): (c: LlmClient)
    ensures c.GeminiClient?
    ensures c.model == if model.Some? && model.value != "" then model else settings.geminiModel
  {
    if model.Some? && model.value != "" then GeminiClient(model) else GeminiClient(settings.geminiModel)
  }

  const DefaultOpenAIModel := "gpt-4o-mini"

  /** `OpenAIClient(api_key, model)`: a missing or empty key is refused. */
  function NewOpenAIClient(apiKey: Option<string>, model: string): (r: Result<LlmClient, Exception>)
    ensures r.Ok? <==> apiKey.Some? && apiKey.value != ""
    ensures r.Ok? ==> r.value == OpenAIClient(apiKey.value, model)
    ensures r.Err? ==> r.error == ValueError("OpenAI API key is required for OpenAIClient")
  {
    if apiKey.None? || apiKey.value == "" then Err(ValueError("OpenAI API key is required for OpenAIClient"))
    else Ok(OpenAIClient(apiKey.value, model))
  }

  const InvalidJsonPrefix := "Gemini returned invalid JSON. Error: "

  /** `GeminiClient.generate_json`: sends the prompt, sanitises the reply and decodes it; a
      reply that does not decode becomes a ValueError naming the decode error and the start
      of the sanitised text. `OpenAIClient.generate_json` is a stub that always raises. */
  function GenerateJson(client: LlmClient, prompt: string, backend: Backend, decode: Decoder)
    : (r: Result<Json, Exception>)
    ensures client.OpenAIClient? ==>
      r == Err(NotImplementedError("OpenAIClient.generate_json() is not implemented yet."))
    ensures client.GeminiClient? && backend(client.model, prompt).Err? ==>
      r == Err(backend(client.model, prompt).error)
    ensures client.GeminiClient? && backend(client.model, prompt).Ok? ==>
      var cleaned := CleanJsonResponse(backend(client.model, prompt).value);
      match decode(cleaned)
      case Ok(v) => r == Ok(v)
      case Err(e) => r.Err? && r.error.ValueError? && InvalidJsonPrefix + e <= r.error.message
  {
    match client
    case OpenAIClient(_, _) => Err(NotImplementedError("OpenAIClient.generate_json() is not implemented yet."))
    case GeminiClient(model) =>
      match backend(model, prompt)
      case Err(e) => Err(e)
      case Ok(raw) =>
        var cleaned := CleanJsonResponse(raw);
        match decode(cleaned)
        case Ok(v) => Ok(v)
        case Err(e) =>
          Err(ValueError(InvalidJsonPrefix + e + ". Cleaned response: " + Take(cleaned, 200)))
  }

  /** `create_llm_client`: "gemini" builds a Gemini client on GEMINI_MODEL; "openai" calls the
      OpenAI constructor without a key, which refuses; anything else is unsupported. */
  function CreateLlmClient(settings: Config.Settings): (r: Result<LlmClient, Exception>)
    ensures r.Ok? <==> settings.llmProvider == "gemini"
    ensures r.Ok? ==> r.value == GeminiClient(settings.geminiModel)
    ensures settings.llmProvider == "openai" ==>
      r == Err(ValueError("OpenAI API key is required for OpenAIClient"))
    ensures settings.llmProvider != "gemini" && settings.llmProvider != "openai" ==>
      r == Err(ValueError("Unsupported LLM provider: " + settings.llmProvider))
  {
    if settings.llmProvider == "gemini" then Ok(NewGeminiClient(None, settings))
    else if settings.llmProvider == "openai" then NewOpenAIClient(None, DefaultOpenAIModel)
    else Err(ValueError("Unsupported LLM provider: " + settings.llmProvider))
  }

  /** For settings read from an environment, the factory succeeds exactly for the Gemini
      provider: the "Unsupported" branch is never reached, and "openai" always fails. */
  lemma CreateFromLoadedSettings(env: Config.Environment)
    requires Config.LoadSettings(env).Ok?
    ensures var st := Config.LoadSettings(env).value;
      && (CreateLlmClient(st).Ok? <==> st.llmProvider == "gemini")
      && (CreateLlmClient(st).Err? ==>
            CreateLlmClient(st).error == ValueError("OpenAI API key is required for OpenAIClient"))
  {
  }
}
