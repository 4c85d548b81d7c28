/** JSON values as the usage extractor sees them (src/billing.rs, `extract_usage_from_json`). */
module UsageJson {
  import opened Prelude
  import opened Cost

  datatype Protocol = OpenAI | Anthropic

  /** A number carries its value when it is an integer of 64 bits, otherwise nothing. */
  datatype Json =
    | Null
    | Bool(b: bool)
    | Number(asI64: Option<int>)
    | Str(s: string)
    | Array(items: seq<Json>)
    | Object(fields: map<string, Json>)
  {
    function Get(key: string): Option<Json> {
      if Object? && key in fields then Some(fields[key]) else None
    }

    function AsInt(): Option<int> { if Number? then asI64 else None }
  }

  /** An integer field; anything else counts as zero. */
  function Num(v: Json, key: string): int {
    match v.Get(key)
    case Some(n) => n.AsInt().GetOr(0)
    case None => 0
  }

  predicate HasUsage(body: Json) {
    body.Get("usage").Some? && body.Get("usage").value.Object?
  }

  function ExtractUsage(protocol: Protocol, body: Json): Usage {
    if !HasUsage(body) then ZERO_USAGE
    else
      var usage := body.Get("usage").value;
      match protocol
      case OpenAI =>
        var prompt := Num(usage, "prompt_tokens");
        var cached := match usage.Get("prompt_tokens_details")
                      case Some(d) => Num(d, "cached_tokens")
                      case None => 0;
        Usage(Max(prompt - cached, 0), Num(usage, "completion_tokens"), cached, 0)
      case Anthropic =>
        Usage(Num(usage, "input_tokens"), Num(usage, "output_tokens"),
              Num(usage, "cache_read_input_tokens"), Num(usage, "cache_creation_input_tokens"))
  }

  function Int(n: int): Json { Number(Some(n)) }

  /** Every usage an OpenAI answer can report is read back from it, whatever else the answer says: its prompt tokens
      include the cached ones. */
  lemma OpenAIReadsBack(u: Usage, body: map<string, Json>, usage: map<string, Json>, details: map<string, Json>)
    requires 0 <= u.input && u.cacheWrite == 0
    requires usage == usage["prompt_tokens" := Int(u.input + u.cacheRead)]["completion_tokens" := Int(u.output)]
                           ["prompt_tokens_details" := Object(details["cached_tokens" := Int(u.cacheRead)])]
    ensures ExtractUsage(OpenAI, Object(body["usage" := Object(usage)])) == u
  {
    assert usage["prompt_tokens"] == Int(u.input + u.cacheRead) && usage["completion_tokens"] == Int(u.output);
    assert usage["prompt_tokens_details"] == Object(details["cached_tokens" := Int(u.cacheRead)]);
  }

  /** The plain OpenAI answer, without details on the prompt, has no cached tokens. */
  lemma PlainPrompt(prompt: int, completion: int, body: map<string, Json>, usage: map<string, Json>)
    requires 0 <= prompt && "prompt_tokens_details" !in usage
    requires usage == usage["prompt_tokens" := Int(prompt)]["completion_tokens" := Int(completion)]
    ensures ExtractUsage(OpenAI, Object(body["usage" := Object(usage)])) == Usage(prompt, completion, 0, 0)
  {
    assert usage["prompt_tokens"] == Int(prompt) && usage["completion_tokens"] == Int(completion);
  }

  /** The field is not there, or not an integer of 64 bits. */
  predicate NoInteger(fields: map<string, Json>, key: string) {
    key in fields ==> !(fields[key].Number? && fields[key].asI64.Some?)
  }

  /** Each field that is missing or not an integer counts as zero, in an OpenAI answer ... */
  lemma OpenAIMissing(body: map<string, Json>, usage: map<string, Json>)
    ensures var u := ExtractUsage(OpenAI, Object(body["usage" := Object(usage)]));
            && u.cacheWrite == 0
            && (NoInteger(usage, "prompt_tokens") && u.cacheRead >= 0 ==> u.input == 0)
            && (NoInteger(usage, "completion_tokens") ==> u.output == 0)
            && ("prompt_tokens_details" !in usage ==> u.cacheRead == 0)
            && ("prompt_tokens_details" in usage && !usage["prompt_tokens_details"].Object? ==> u.cacheRead == 0)
            && (forall details | usage.Items >= {("prompt_tokens_details", Object(details))} ::
                  NoInteger(details, "cached_tokens") ==> u.cacheRead == 0)
  {
  }

  /** ... and in an Anthropic one. */
  lemma AnthropicMissing(body: map<string, Json>, usage: map<string, Json>)
    ensures var u := ExtractUsage(Anthropic, Object(body["usage" := Object(usage)]));
            && (NoInteger(usage, "input_tokens") ==> u.input == 0)
            && (NoInteger(usage, "output_tokens") ==> u.output == 0)
            && (NoInteger(usage, "cache_read_input_tokens") ==> u.cacheRead == 0)
            && (NoInteger(usage, "cache_creation_input_tokens") ==> u.cacheWrite == 0)
  {
  }

  /** An answer without a usage object reports nothing. */
  lemma NoUsageNothing(p: Protocol, body: Json)
    requires !body.Object? || "usage" !in body.fields || !body.fields["usage"].Object?
    ensures ExtractUsage(p, body) == Usage(0, 0, 0, 0)
  {
  }

  /** Likewise for an Anthropic answer, which reports cached tokens apart. */
  lemma AnthropicReadsBack(u: Usage, body: map<string, Json>, usage: map<string, Json>)
    requires usage == usage["input_tokens" := Int(u.input)]["output_tokens" := Int(u.output)]
                           ["cache_read_input_tokens" := Int(u.cacheRead)]["cache_creation_input_tokens" := Int(u.cacheWrite)]
    ensures ExtractUsage(Anthropic, Object(body["usage" := Object(usage)])) == u
  {
    assert usage["input_tokens"] == Int(u.input) && usage["output_tokens"] == Int(u.output);
    assert usage["cache_read_input_tokens"] == Int(u.cacheRead) && usage["cache_creation_input_tokens"] == Int(u.cacheWrite);
  }

  /** Prompt tokens are billed once, as fresh or as cached, exactly when the cached count is not negative or hides all of
      the prompt: billing clamps a negative cached count to zero, but the subtraction does not. */
  lemma PromptBilledOnce(body: Json)
    requires HasUsage(body)
    ensures var u := ExtractUsage(OpenAI, body);
            var prompt := Num(body.Get("usage").value, "prompt_tokens");
            Max(u.input, 0) + Max(u.cacheRead, 0) == Max(prompt, Max(u.cacheRead, 0)) <==>
              u.cacheRead >= 0 || prompt <= u.cacheRead
  {
  }
}
