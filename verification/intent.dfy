/**
 * Intent recognition (`recognize_intent`): the user prompt sent to the LLM,
 * the extraction of the JSON object from its answer, the filling of missing
 * fields, and the fallback results.
 *
 * The LLM is the oracle `llm` (an error is the exception it raised),
 * `json.loads` is the partial function `parse` (None is a JSONDecodeError),
 * `json.dumps` is `dumps`, and the text of an exception raised while
 * inspecting the parsed value is `describe`.
 */
module Intent {
  import opened Wrappers
  import opened OrderedDict
  import opened Values
  import opened Strings
  import opened StrFormat
  import opened IntentPrompt

  /** The four fields every recognised intent carries, in the order the check visits them. */
  const RequiredFields: seq<string> := ["intent", "subintent", "entities", "confidence"]

  /** The user prompt: the text, followed by the serialised context when there is a non-empty one. */
  function UserPrompt(text: string, context: Option<Dict>, dumps: Dict -> string): string {
    match context
    case Some(c) => if |c| > 0 then text + "\n\nContext: " + dumps(c) else text
    case None => text
  }

  /** The prompt starts with the text, and is the text alone exactly when there is no non-empty context. */
  lemma UserPromptSpec(text: string, context: Option<Dict>, dumps: Dict -> string)
    ensures StartsWith(UserPrompt(text, context, dumps), text)
    ensures UserPrompt(text, context, dumps) == text <==> context.None? || |context.value| == 0
    ensures context.Some? && |context.value| > 0 ==>
      EndsWith(UserPrompt(text, context, dumps), "\n\nContext: " + dumps(context.value))
  {
    var p := UserPrompt(text, context, dumps);
    if context.Some? && |context.value| > 0 {
      var tail := "\n\nContext: " + dumps(context.value);
      assert p == text + tail;
      assert p[..|text|] == text;
      assert p[|p| - |tail|..] == tail;
      assert |p| > |text|;
    }
  }

  // ---------------------------------------------------------------------------
  // The JSON span.

  /**
   * The text handed to `json.loads`: from the first `{` through the last `}`
   * when both exist in that order, else the whole response.
   */
  function JsonText(response: string): (t: string) {
    var start := match IndexOf(response, "{") case Some(a) => a case None => -1;
    var end := match LastIndexOf(response, "}") case Some(b) => b + 1 case None => 0;
    if start >= 0 && end > start then response[start..end] else response
  }

  /** The span is taken exactly when a `}` follows the first `{`, and then runs from that `{` to the last `}`. */
  lemma JsonTextSpec(response: string)
    ensures var open := IndexOf(response, "{");
      var close := LastIndexOf(response, "}");
      if open.Some? && close.Some? && open.value < close.value then
        && JsonText(response) == response[open.value..close.value + 1]
        && JsonText(response)[0] == '{'
        && JsonText(response)[|JsonText(response)| - 1] == '}'
      else JsonText(response) == response
  {
    var open := IndexOf(response, "{");
    var close := LastIndexOf(response, "}");
    if open.Some? && close.Some? {
      OccursChar(response, '{', open.value);
      OccursChar(response, '}', close.value);
      assert open.value != close.value;
    }
  }

  /** The span holds no `{` before its first character and no `}` after its last. */
  lemma JsonTextOutermost(response: string)
    requires IndexOf(response, "{").Some? && LastIndexOf(response, "}").Some?
    requires IndexOf(response, "{").value < LastIndexOf(response, "}").value
    ensures forall j :: 0 <= j < IndexOf(response, "{").value ==> response[j] != '{'
    ensures forall j :: LastIndexOf(response, "}").value < j < |response| ==> response[j] != '}'
  {
    IndexOfIsFirst(response, "{");
    LastIndexOfIsLast(response, "}");
    forall j | 0 <= j < IndexOf(response, "{").value
      ensures response[j] != '{'
    {
      OccursChar(response, '{', j);
    }
    forall j | LastIndexOf(response, "}").value < j < |response|
      ensures response[j] != '}'
    {
      OccursChar(response, '}', j);
    }
  }

  // ---------------------------------------------------------------------------
  // Default fields.

  /** The four `setdefault` calls, in the source's order. */
  function SetDefaults(d: Dict): Dict {
    var a := SetDefault(d, "entities", VDict([]));
    var b := SetDefault(a, "confidence", VReal(0.5));
    var c := SetDefault(b, "intent", VStr("unknown"));
    SetDefault(c, "subintent", VStr("unknown"))
  }

  /** The loop over the required fields, from field `i` on: a missing field triggers all four defaults. */
  function FillFrom(d: Dict, i: nat): Dict
    requires i <= |RequiredFields|
    decreases |RequiredFields| - i
  {
    if i == |RequiredFields| then d
    else if RequiredFields[i] !in Keys(d) then FillFrom(SetDefaults(d), i + 1)
    else FillFrom(d, i + 1)
  }

  /** Filling the parsed object. */
  function FillDefaults(d: Dict): Dict {
    FillFrom(d, 0)
  }

  /** The default of a required field, and None for any other key. */
  function DefaultOf(k: string): Option<Value> {
    if k == "entities" then Some(VDict([]))
    else if k == "confidence" then Some(VReal(0.5))
    else if k == "intent" || k == "subintent" then Some(VStr("unknown"))
    else None
  }

  /** `setdefault` stores only a missing key and keeps the rest. */
  lemma SetDefaultAt(d: Dict, k: string, v: Value, key: string)
    ensures Lookup(SetDefault(d, k, v), key) == if key == k && k !in Keys(d) then Some(v) else Lookup(d, key)
  {
    SetSpec(d, k, v);
    GetSome(d, k);
  }

  /** After the defaults, a key reads as before if it was present, else as its default. */
  lemma SetDefaultsAt(d: Dict, key: string)
    ensures Lookup(SetDefaults(d), key) == if key in Keys(d) then Lookup(d, key) else DefaultOf(key)
  {
    var a := SetDefault(d, "entities", VDict([]));
    var b := SetDefault(a, "confidence", VReal(0.5));
    var c := SetDefault(b, "intent", VStr("unknown"));
    SetDefaultAt(d, "entities", VDict([]), key);
    SetDefaultAt(a, "confidence", VReal(0.5), key);
    SetDefaultAt(b, "intent", VStr("unknown"), key);
    SetDefaultAt(c, "subintent", VStr("unknown"), key);
    GetSome(d, key);
    SetDefaultAt(d, "entities", VDict([]), "confidence");
    SetDefaultAt(d, "entities", VDict([]), "intent");
    SetDefaultAt(d, "entities", VDict([]), "subintent");
    SetDefaultAt(a, "confidence", VReal(0.5), "intent");
    SetDefaultAt(a, "confidence", VReal(0.5), "subintent");
    SetDefaultAt(b, "intent", VStr("unknown"), "subintent");
    GetSome(a, "confidence");
    GetSome(b, "intent");
    GetSome(c, "subintent");
    GetSome(d, "confidence");
    GetSome(d, "intent");
    GetSome(d, "subintent");
  }

  /** After the defaults, a key is present exactly when it was before or is a required field. */
  lemma SetDefaultsKeys(d: Dict, key: string)
    ensures key in Keys(SetDefaults(d)) <==> key in Keys(d) || key in RequiredFields
  {
    SetDefaultsAt(d, key);
    GetSome(SetDefaults(d), key);
    GetSome(d, key);
  }

  /** Defaults on an object that has every field change nothing. */
  lemma SetDefaultsComplete(d: Dict)
    requires forall f :: f in RequiredFields ==> f in Keys(d)
    ensures SetDefaults(d) == d
  {
    assert "entities" in RequiredFields && "confidence" in RequiredFields;
    assert "intent" in RequiredFields && "subintent" in RequiredFields;
  }

  /** The loop amounts to applying the defaults once: a field it finds missing triggers them, after which none is. */
  lemma {:induction false} FillFromSpec(d: Dict, i: nat)
    requires i <= |RequiredFields|
    ensures FillFrom(d, i) == d || FillFrom(d, i) == SetDefaults(d)
    ensures FillFrom(d, i) == d ==> forall j :: i <= j < |RequiredFields| ==> RequiredFields[j] in Keys(d)
    decreases |RequiredFields| - i
  {
    if i < |RequiredFields| {
      if RequiredFields[i] !in Keys(d) {
        forall f | f in RequiredFields ensures f in Keys(SetDefaults(d)) {
          SetDefaultsKeys(d, f);
        }
        SetDefaultsComplete(SetDefaults(d));
        FillFromComplete(SetDefaults(d), i + 1);
      } else {
        FillFromSpec(d, i + 1);
      }
    }
  }

  lemma {:induction false} FillFromComplete(d: Dict, i: nat)
    requires i <= |RequiredFields|
    requires forall f :: f in RequiredFields ==> f in Keys(d)
    ensures FillFrom(d, i) == d
    decreases |RequiredFields| - i
  {
    if i < |RequiredFields| {
      assert RequiredFields[i] in RequiredFields;
      FillFromComplete(d, i + 1);
    }
  }

  /**
   * After filling, a key the model gave reads as it did, a missing one reads
   * as its default (so all four fields are present), and other keys are
   * untouched. Filling twice is filling once.
   */
  lemma FillDefaultsSpec(d: Dict)
    ensures forall k :: Lookup(FillDefaults(d), k) == if k in Keys(d) then Lookup(d, k) else DefaultOf(k)
    ensures forall f :: f in RequiredFields ==> f in Keys(FillDefaults(d))
    ensures FillDefaults(FillDefaults(d)) == FillDefaults(d)
  {
    FillFromSpec(d, 0);
    var r := FillDefaults(d);
    if r == d {
      forall f | f in RequiredFields
        ensures f in Keys(d)
      {
        var j :| 0 <= j < |RequiredFields| && RequiredFields[j] == f;
      }
      forall k ensures Lookup(r, k) == if k in Keys(d) then Lookup(d, k) else DefaultOf(k) {
        GetSome(d, k);
        assert k !in Keys(d) ==> k !in RequiredFields;
      }
    } else {
      forall f | f in RequiredFields ensures f in Keys(SetDefaults(d)) {
        SetDefaultsKeys(d, f);
      }
      forall k ensures Lookup(r, k) == if k in Keys(d) then Lookup(d, k) else DefaultOf(k) {
        SetDefaultsAt(d, k);
      }
    }
    FillFromComplete(r, 0);
  }

  // ---------------------------------------------------------------------------
  // The result.

  /**
   * Why `recognize_intent` raised before or after asking the LLM: formatting
   * the system prompt failed, the parsed value is not a dict, or its
   * confidence cannot be formatted with `:.2f`.
   */
  datatype Fault = PromptFailed(error: FormatError) | NotADict(parsed: Value) | BadConfidence(confidence: Value)

  /** The result when anything other than a JSON decode error went wrong. */
  function Failed(message: string): Dict {
    [("intent", VStr("error")), ("subintent", VStr("recognition_failed")),
     ("entities", VDict([("error_message", VStr(message))])), ("confidence", VReal(0.0))]
  }

  /** The result when the answer is not JSON. */
  function Unparsed(response: string): Dict {
    [("intent", VStr("unknown")), ("subintent", VStr("general_query")), ("entities", VDict([])),
     ("confidence", VReal(0.1)), ("raw_response", VStr(response))]
  }

  /**
   * `recognize_intent` once its prompt template has been formatted with the
   * serialised taxonomy: a formatting error gives the error result, else the
   * LLM is asked with the user prompt and the resulting system prompt.
   */
  function Recognize(prompt: Formatted, text: string, context: Option<Dict>, dumps: Dict -> string,
                     llm: (string, string) -> Result<string>, parse: string -> Option<Value>,
                     describe: Fault -> string): Dict {
    match prompt
    case Raised(e) => Failed(describe(PromptFailed(e)))
    case Rendered(system) =>
      match llm(UserPrompt(text, context, dumps), system)
      case Err(e) => Failed(e)
      case Ok(response) =>
        match parse(JsonText(response))
        case None => Unparsed(response)
        case Some(VDict(d)) =>
          var filled := FillDefaults(d);
          var confidence := GetOr(filled, "confidence", VNone);
          if Formattable(confidence) then filled else Failed(describe(BadConfidence(confidence)))
        case Some(other) => Failed(describe(NotADict(other)))
  }

  /** `recognize_intent` as written, with the template whose example braces are single. */
  function WrittenRecognizeIntent(text: string, context: Option<Dict>, taxonomy: string, dumps: Dict -> string,
                                  llm: (string, string) -> Result<string>, parse: string -> Option<Value>,
                                  describe: Fault -> string, render: string -> Formatted): Dict {
    Recognize(Format(WrittenTemplate, TaxonomyKey, taxonomy, render), text, context, dumps, llm, parse, describe)
  }

  /** `recognize_intent` with the example's braces doubled, as evidently intended. */
  function RecognizeIntent(text: string, context: Option<Dict>, taxonomy: string, dumps: Dict -> string,
                           llm: (string, string) -> Result<string>, parse: string -> Option<Value>,
                           describe: Fault -> string, render: string -> Formatted): Dict {
    Recognize(Format(CorrectedTemplate, TaxonomyKey, taxonomy, render), text, context, dumps, llm, parse, describe)
  }

  /** The four fields of a fixed result. */
  predicate Fields(r: Dict, intent: string, subintent: string, confidence: real) {
    && Lookup(r, "intent") == Some(VStr(intent))
    && Lookup(r, "subintent") == Some(VStr(subintent))
    && Lookup(r, "confidence") == Some(VReal(confidence))
  }

  lemma FailedSpec(message: string)
    ensures Fields(Failed(message), "error", "recognition_failed", 0.0)
    ensures Lookup(Failed(message), "entities") == Some(VDict([("error_message", VStr(message))]))
  {
    var i := ("intent", VStr("error"));
    var s := ("subintent", VStr("recognition_failed"));
    var e := ("entities", VDict([("error_message", VStr(message))]));
    var c := ("confidence", VReal(0.0));
    GetDisplay4(i, s, e, c, "intent");
    GetDisplay4(i, s, e, c, "subintent");
    GetDisplay4(i, s, e, c, "entities");
    GetDisplay4(i, s, e, c, "confidence");
    GetDisplay3(s, e, c, "subintent");
    GetDisplay3(s, e, c, "entities");
    GetDisplay3(s, e, c, "confidence");
  }

  lemma UnparsedSpec(response: string)
    ensures Fields(Unparsed(response), "unknown", "general_query", 0.1)
    ensures Lookup(Unparsed(response), "entities") == Some(VDict([]))
    ensures Lookup(Unparsed(response), "raw_response") == Some(VStr(response))
  {
    var i := ("intent", VStr("unknown"));
    var s := ("subintent", VStr("general_query"));
    var e := ("entities", VDict([]));
    var c := ("confidence", VReal(0.1));
    var w := ("raw_response", VStr(response));
    GetDisplay5(i, s, e, c, w, "intent");
    GetDisplay5(i, s, e, c, w, "subintent");
    GetDisplay5(i, s, e, c, w, "entities");
    GetDisplay5(i, s, e, c, w, "confidence");
    GetDisplay5(i, s, e, c, w, "raw_response");
    GetDisplay4(s, e, c, w, "subintent");
    GetDisplay4(s, e, c, w, "entities");
    GetDisplay4(s, e, c, w, "confidence");
    GetDisplay4(s, e, c, w, "raw_response");
    GetDisplay3(e, c, w, "entities");
    GetDisplay3(e, c, w, "confidence");
    GetDisplay3(e, c, w, "raw_response");
  }

  /**
   * The result `r` for the LLM's `answer`: the error result carrying the
   * exception's text when the call failed; the unparsed result carrying the
   * raw answer when it is not JSON; the error result when the parsed value is
   * not an object; otherwise the object with its fields filled, unless its
   * confidence cannot be formatted, which gives the error result.
   */
  predicate Answered(r: Dict, answer: Result<string>, parse: string -> Option<Value>) {
    && (answer.Err? ==>
          Fields(r, "error", "recognition_failed", 0.0)
          && Lookup(r, "entities") == Some(VDict([("error_message", VStr(answer.error))])))
    && (answer.Ok? && parse(JsonText(answer.value)).None? ==>
          Fields(r, "unknown", "general_query", 0.1) && Lookup(r, "raw_response") == Some(VStr(answer.value)))
    && (answer.Ok? && parse(JsonText(answer.value)).Some? && !parse(JsonText(answer.value)).value.VDict? ==>
          Fields(r, "error", "recognition_failed", 0.0))
    && (answer.Ok? && parse(JsonText(answer.value)).Some? && parse(JsonText(answer.value)).value.VDict? ==>
          var d := parse(JsonText(answer.value)).value.entries;
          if Formattable(GetOr(FillDefaults(d), "confidence", VNone)) then
            r == FillDefaults(d) && forall f :: f in RequiredFields ==> f in Keys(r)
          else Fields(r, "error", "recognition_failed", 0.0))
  }

  /** Once the system prompt is formatted, the outcome is decided by the LLM's answer to the two prompts. */
  lemma RecognizeSpec(system: string, text: string, context: Option<Dict>, dumps: Dict -> string,
                      llm: (string, string) -> Result<string>, parse: string -> Option<Value>, describe: Fault -> string)
    ensures Answered(Recognize(Rendered(system), text, context, dumps, llm, parse, describe),
                     llm(UserPrompt(text, context, dumps), system), parse)
  {
    var answer := llm(UserPrompt(text, context, dumps), system);
    match answer {
      case Err(e) => FailedSpec(e);
      case Ok(response) =>
        match parse(JsonText(response)) {
          case None => UnparsedSpec(response);
          case Some(v) =>
            if v.VDict? {
              FillDefaultsSpec(v.entries);
              var confidence := GetOr(FillDefaults(v.entries), "confidence", VNone);
              if !Formattable(confidence) {
                FailedSpec(describe(BadConfidence(confidence)));
              }
            } else {
              FailedSpec(describe(NotADict(v)));
            }
        }
    }
  }

  /**
   * Every outcome of `recognize_intent`: an LLM failure, a parsed object
   * with its fields filled, the raw answer when it is not JSON, or the
   * error result when the parsed value cannot be inspected.
   */
  lemma RecognizeIntentSpec(text: string, context: Option<Dict>, taxonomy: string, dumps: Dict -> string,
                            llm: (string, string) -> Result<string>, parse: string -> Option<Value>,
                            describe: Fault -> string, render: string -> Formatted)
    ensures Answered(RecognizeIntent(text, context, taxonomy, dumps, llm, parse, describe, render),
                     llm(UserPrompt(text, context, dumps), SystemPrompt(taxonomy)), parse)
  {
    CorrectedTemplateRenders(taxonomy, render);
    RecognizeSpec(SystemPrompt(taxonomy), text, context, dumps, llm, parse, describe);
  }


  /** A formatting error gives the error result, carrying its description, before the LLM is asked. */
  lemma RecognizeRaises(e: FormatError, text: string, context: Option<Dict>, dumps: Dict -> string,
                        llm: (string, string) -> Result<string>, parse: string -> Option<Value>, describe: Fault -> string)
    ensures var r := Recognize(Raised(e), text, context, dumps, llm, parse, describe);
      && r == Failed(describe(PromptFailed(e)))
      && Fields(r, "error", "recognition_failed", 0.0)
      && Lookup(r, "entities") == Some(VDict([("error_message", VStr(describe(PromptFailed(e))))]))
  {
    FailedSpec(describe(PromptFailed(e)));
  }

  /**
   * As written, `recognize_intent` never reaches the LLM: formatting the
   * system prompt raises KeyError for the example's first key, and the
   * handler returns the error result of FailedSpec, whatever the text, context and answers.
   */
  lemma WrittenRecognizeIntentFails(text: string, context: Option<Dict>, taxonomy: string, dumps: Dict -> string,
                                    llm: (string, string) -> Result<string>, parse: string -> Option<Value>,
                                    describe: Fault -> string, render: string -> Formatted)
    ensures WrittenRecognizeIntent(text, context, taxonomy, dumps, llm, parse, describe, render)
         == Failed(describe(PromptFailed(MissingKey(FirstKey))))
  {
    WrittenTemplateRaises(taxonomy, render);
    RecognizeRaises(MissingKey(FirstKey), text, context, dumps, llm, parse, describe);
  }
}
