/** Application settings read once from the environment (`Settings.__init__`). */
module Config {
  import opened Wrappers
  import opened Errors
  import opened Text

  /** The process environment, `os.environ`. */
  type Environment = map<string, string>

  datatype Settings = Settings(
    debug: bool,
    resumeStorageDir: string,
    llmProvider: string,
    geminiApiKey: Option<string>,
    geminiModel: Option<string>,
    openaiApiKey: Option<string>,
    anthropicApiKey: Option<string>,
    llmTimeout: int)

  /** `os.getenv(key)`. */
  function GetEnv(env: Environment, key: string): Option<string> {
    if key in env then Some(env[key]) else None
  }

  /** `os.getenv(key, default)`. */
  function GetEnvOr(env: Environment, key: string, default: string): string {
    if key in env then env[key] else default
  }

  /** `Settings._bool`: the value, lower-cased, is one of "1", "true", "yes", "on". */
  function Bool(value: string): bool {
    var v := Lower(value);
    v == "1" || v == "true" || v == "yes" || v == "on"
  }

  /** `_bool` ignores case: a value and its lower-cased form read the same. */
  lemma BoolIgnoresCase(value: string)
    ensures Bool(value) == Bool(Lower(value))
  {
    LowerIdempotent(value);
  }

  predicate IsDigit(c: char) {
    '0' <= c <= '9'
  }

  /** No two underscores next to each other. */
  predicate SingleUnderscores(s: string) {
    |s| < 2 || (!(s[0] == '_' && s[1] == '_') && SingleUnderscores(s[1..]))
  }

  /** The digits read here: ASCII digits, each '_' between two digits. `int()` also accepts
      the other Unicode decimal digits, which this model does not read. */
  predicate ValidDigits(s: string) {
    && |s| > 0 && IsDigit(s[0]) && IsDigit(s[|s| - 1])
    && (forall k :: 0 <= k < |s| ==> IsDigit(s[k]) || s[k] == '_')
    && SingleUnderscores(s)
  }

  /** The value of a digit string, underscores skipped. */
  function DigitsValue(s: string): int {
    if s == [] then 0
    else if s[|s| - 1] == '_' then DigitsValue(s[..|s| - 1])
    else 10 * DigitsValue(s[..|s| - 1]) + (s[|s| - 1] as int - '0' as int)
  }

  /** `int(s)` for a str: surrounding whitespace, an optional sign and base-10 digits;
      None where Python raises ValueError. */
  function ParseInt(s: string): (r: Option<int>)
    ensures r.Some? ==> Strip(s) != ""
  {
    ParseSigned(Strip(s))
  }

  /** An optional sign followed by valid digits. */
  function ParseSigned(t: string): (r: Option<int>)
    ensures r.Some? ==> t != ""
  {
    if t == "" then None
    else
      var body := if t[0] == '-' || t[0] == '+' then t[1..] else t;
      if ValidDigits(body) then Some(if t[0] == '-' then -DigitsValue(body) else DigitsValue(body)) else None
  }

  /** The decimal text of a natural number. */
  function Decimal(n: nat): (r: string)
    ensures |r| > 0
    ensures forall k :: 0 <= k < |r| ==> IsDigit(r[k])
  {
    var d := [(48 + n % 10) as char];
    if n < 10 then d else Decimal(n / 10) + d
  }

  /** `str(i)`. */
  function IntText(i: int): string {
    if i < 0 then "-" + Decimal(-i) else Decimal(i)
  }

  lemma {:induction false} DecimalValue(n: nat)
    ensures DigitsValue(Decimal(n)) == n
  {
    if n >= 10 {
      var x := Decimal(n / 10);
      var d := [(48 + n % 10) as char];
      DecimalValue(n / 10);
      assert (x + d)[..|x|] == x;
    }
  }

  lemma AllDigitsValid(dec: string)
    requires |dec| > 0 && forall k :: 0 <= k < |dec| ==> IsDigit(dec[k])
    ensures ValidDigits(dec)
  {
    NoUnderscores(dec);
  }

  lemma NoUnderscores(s: string)
    requires forall k :: 0 <= k < |s| ==> s[k] != '_'
    ensures SingleUnderscores(s)
  {
    if |s| >= 2 {
      NoUnderscores(s[1..]);
    }
  }

  /** Digits, with or without a minus sign, have no surrounding whitespace. */
  lemma DigitsStripped(sign: string, dec: string)
    requires sign == "" || sign == "-"
    requires |dec| > 0 && forall k :: 0 <= k < |dec| ==> IsDigit(dec[k])
    ensures Strip(sign + dec) == sign + dec
  {
    var t := sign + dec;
    assert t[0] == '-' || IsDigit(t[0]);
    assert IsDigit(t[|t| - 1]) by { assert t[|t| - 1] == dec[|dec| - 1]; }
    StripByStripped(t, IsSpace);
  }

  lemma ParseStrippedText(t: string)
    requires Strip(t) == t
    ensures ParseInt(t) == ParseSigned(t)
  {
  }

  lemma SignedDigits(sign: string, dec: string)
    requires sign == "" || sign == "-"
    requires ValidDigits(dec)
    ensures ParseSigned(sign + dec) == Some(if sign == "-" then -DigitsValue(dec) else DigitsValue(dec))
  {
    var t := sign + dec;
    if sign == "-" {
      assert t[1..] == dec;
    } else {
      assert t == dec;
    }
  }

  /** A digit string, optionally after a minus sign, parses to its value. */
  lemma DigitsParse(sign: string, dec: string)
    requires sign == "" || sign == "-"
    requires |dec| > 0 && forall k :: 0 <= k < |dec| ==> IsDigit(dec[k])
    ensures ParseInt(sign + dec) == Some(if sign == "-" then -DigitsValue(dec) else DigitsValue(dec))
  {
    AllDigitsValid(dec);
    SignedDigits(sign, dec);
    DigitsStripped(sign, dec);
    ParseStrippedText(sign + dec);
  }

  /** `int(str(i)) == i`: the integer parser reads back every integer's text. */
  lemma ParseIntText(i: int)
    ensures ParseInt(IntText(i)) == Some(i)
  {
    var n: nat := if i < 0 then -i else i;
    var sign := if i < 0 then "-" else "";
    var dec := Decimal(n);
    DecimalValue(n);
    DigitsParse(sign, dec);
    assert IntText(i) == sign + dec;
  }

  const ProviderError := "', expected one of ('gemini', 'openai')"

  /** `Settings()`: reads the environment once and raises at construction when LLM_PROVIDER is not
      an allowed provider or LLM_TIMEOUT is not an integer. */
  function LoadSettings(env: Environment): (r: Result<Settings, Exception>)
    ensures var p := Lower(GetEnvOr(env, "LLM_PROVIDER", "gemini"));
      && (p != "gemini" && p != "openai" ==> r == Err(ValueError("Invalid LLM_PROVIDER '" + p + ProviderError)))
      && ((p == "gemini" || p == "openai") ==>
            (r.Ok? <==> ParseInt(GetEnvOr(env, "LLM_TIMEOUT", "30")).Some?))
    ensures r.Ok? ==>
      && r.value.llmProvider == Lower(GetEnvOr(env, "LLM_PROVIDER", "gemini"))
      && r.value.llmProvider in {"gemini", "openai"}
      && r.value.debug == Bool(GetEnvOr(env, "DEBUG", "false"))
      && r.value.resumeStorageDir == GetEnvOr(env, "RESUME_STORAGE_DIR", "storage/resumes")
      && r.value.geminiApiKey == GetEnv(env, "GEMINI_API_KEY")
      && r.value.geminiModel == GetEnv(env, "GEMINI_MODEL")
      && r.value.openaiApiKey == GetEnv(env, "OPENAI_API_KEY")
      && r.value.anthropicApiKey == GetEnv(env, "ANTHROPIC_API_KEY")
      && Some(r.value.llmTimeout) == ParseInt(GetEnvOr(env, "LLM_TIMEOUT", "30"))
  {
    var debug := Bool(GetEnvOr(env, "DEBUG", "false"));
    var storageDir := GetEnvOr(env, "RESUME_STORAGE_DIR", "storage/resumes");
    var raw := Lower(GetEnvOr(env, "LLM_PROVIDER", "gemini"));
    if raw != "gemini" && raw != "openai" then
      Err(ValueError("Invalid LLM_PROVIDER '" + raw + ProviderError))
    else
      var timeoutText := GetEnvOr(env, "LLM_TIMEOUT", "30");
      match ParseInt(timeoutText)
      case None => Err(ValueError("invalid literal for int() with base 10: " + Repr(timeoutText)))
      case Some(timeout) =>
        Ok(Settings(debug, storageDir, raw, GetEnv(env, "GEMINI_API_KEY"), GetEnv(env, "GEMINI_MODEL"),
                    GetEnv(env, "OPENAI_API_KEY"), GetEnv(env, "ANTHROPIC_API_KEY"), timeout))
  }

  /** With none of its variables set, `Settings` takes the documented defaults: no debug,
      "storage/resumes", the "gemini" provider, no keys and a 30-second timeout. */
  lemma DefaultSettings(env: Environment)
    requires "DEBUG" !in env && "RESUME_STORAGE_DIR" !in env && "LLM_PROVIDER" !in env
    requires "GEMINI_API_KEY" !in env && "GEMINI_MODEL" !in env && "OPENAI_API_KEY" !in env
    requires "ANTHROPIC_API_KEY" !in env && "LLM_TIMEOUT" !in env
    ensures LoadSettings(env) ==
      Ok(Settings(false, "storage/resumes", "gemini", None, None, None, None, 30))
  {
    assert Lower(GetEnvOr(env, "LLM_PROVIDER", "gemini")) == "gemini" by { LowerLiteral("gemini"); }
    assert ParseInt(GetEnvOr(env, "LLM_TIMEOUT", "30")) == Some(30) by { DefaultTimeout(); }
    DebugDefaultOff();
  }

  /** The default DEBUG text reads as false. */
  lemma DebugDefaultOff()
    ensures !Bool("false")
  {
    LowerLiteral("false");
  }

  /** The default timeout text reads as 30. */
  lemma DefaultTimeout()
    ensures ParseInt("30") == Some(30)
  {
    assert Decimal(3) == "3";
    assert Decimal(30) == Decimal(3) + "0" == "30";
    assert IntText(30) == "30";
    ParseIntText(30);
  }

  /** Lower-casing text without capitals changes nothing. */
  lemma LowerLiteral(s: string)
    requires forall k :: 0 <= k < |s| ==> !('A' <= s[k] <= 'Z')
    ensures Lower(s) == s
  {
  }

  /** The provider is case-insensitive: "OpenAI" is accepted and stored as "openai". A single
      example, mirroring the settings tests; `LoadSettings` states it for every provider. */
  lemma ProviderLowerCased(env: Environment)
    requires "LLM_PROVIDER" in env && env["LLM_PROVIDER"] == "OpenAI"
    requires "LLM_TIMEOUT" !in env
    ensures LoadSettings(env).Ok? && LoadSettings(env).value.llmProvider == "openai"
  {
    assert Lower(GetEnvOr(env, "LLM_PROVIDER", "gemini")) == "openai" by { assert Lower("OpenAI") == "openai"; }
    assert ParseInt(GetEnvOr(env, "LLM_TIMEOUT", "30")) == Some(30) by { DefaultTimeout(); }
  }
}
