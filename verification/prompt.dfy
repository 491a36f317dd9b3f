/**
 * The system prompt of intent recognition (`INTENT_RECOGNITION_PROMPT`) and
 * its formatting with the serialised intent taxonomy. The template as
 * written holds a JSON example with single braces, which `str.format` reads
 * as a replacement field; the corrected template doubles them.
 */
module IntentPrompt {
  import opened StrFormat

  /** The prompt's lines before the taxonomy, each split into short pieces. */
  const IntroLine: Literal := Cat(["\nYou are a financial ", "intent recognition ", "system. Your task is ", "to analyze user ", "queries\n"])
  const TaskLine: Literal := Cat(["and determine the ", "specific finance-", "related intent and ", "extract relevant ", "entities.\n\n"])
  const RespondLine: Literal := Cat(["Respond with a JSON ", "object that ", "includes:\n"])
  const IntentLine: Literal := Cat(["1. \"intent\": The ", "primary intent ", "category\n"])
  const SubintentLine: Literal := Cat(["2. \"subintent\": ", "The specific ", "subintent\n"])
  const EntitiesLine: Literal := Cat(["3. \"entities\": ", "Key-value pairs of ", "extracted entities\n"])
  const ConfidenceLine: Literal := Cat(["4. \"confidence\": ", "Your confidence ", "score (0.0-1.0)\n\n"])
  const TaxonomyLine: Literal := Cat(["Use the following ", "finance intent ", "taxonomy:\n"])

  /** Everything before the taxonomy placeholder. */
  const Head: Literal := Cat([IntroLine, TaskLine, RespondLine, IntentLine, SubintentLine, EntitiesLine,
                              ConfidenceLine, TaxonomyLine])

  /** From the end of the placeholder to the example object. */
  const Lead: Literal := Cat(["\n\nExample:\n", "User: \"What's our ", "current cash ", "position as of ", "today?\"\n", "Response:\n"])

  /** The example object's text between its braces, in four brace-free parts. */
  const FirstKey: Literal := "\n  \"intent\""
  const HeadRest: Literal := Cat([" \"cash_management\",\n", "  \"subintent\": ", "\"cash_position\",\n", "  \"entities\": "])
  const Inner: Literal := Cat(["\n    \"date\": ", "\"today\",\n", "    \"type\": ", "\"current\"\n  "])
  const Tail: Literal := Cat([",\n  \"confidence\": ", "0.95\n"])

  /** The example object and the final newline, with `open` and `close` written for its braces. */
  function Example(open: string, close: string): string {
    open + FirstKey + ":" + HeadRest + open + Inner + close + Tail + close + "\n"
  }

  /** The keyword the template is formatted with, and its placeholder. */
  const TaxonomyKey: string := "intent_taxonomy"
  const Placeholder: string := "{" + TaxonomyKey + "}"

  /** `INTENT_RECOGNITION_PROMPT` as written: the example's braces are single. */
  const WrittenTemplate: string := Head + Placeholder + Lead + Example("{", "}")

  /** The template as evidently intended: the example's braces doubled. */
  const CorrectedTemplate: string := Head + Placeholder + Lead + Example("{{", "}}")

  /** The system prompt the model is meant to see: the taxonomy in place, the example as a JSON object. */
  function SystemPrompt(taxonomy: string): string {
    Head + taxonomy + Lead + Example("{", "}")
  }

  lemma TaxonomyKeyBare()
    ensures Bare(TaxonomyKey)
  {
    assert TaxonomyKey[0] == 'i';
  }

  lemma FirstKeyBare()
    ensures Bare(FirstKey) && FirstKey != TaxonomyKey
  {
    assert FirstKey[0] == '\n';
  }

  /**
   * A JSON object written with single braces, whose first key is a quoted
   * word on its own line and whose value holds one nested object, is read as
   * one replacement field named by the text from its `{` to the first `:`.
   * That name is not the keyword, so formatting raises KeyError for it.
   */
  lemma ObjectRaises(firstKey: Literal, headRest: Literal, inner: Literal, tail: Literal,
                     key: string, value: string, render: string -> Formatted)
    requires Bare(firstKey) && firstKey != key
    ensures Format("{" + firstKey + ":" + headRest + "{" + inner + "}" + tail + "}" + "\n", key, value, render)
         == Raised(MissingKey(firstKey))
  {
    var spec := headRest + "{" + inner + "}" + tail;
    var f := firstKey + ":" + spec;
    assert "{" + firstKey + ":" + headRest + "{" + inner + "}" + tail + "}" + "\n" == "{" + f + "}\n";
    FieldEndNested(headRest, inner, tail, "\n");
    assert spec + "}" + "\n" == headRest + "{" + inner + "}" + tail + "}" + "\n";
    SpecFieldClose(firstKey, spec, "\n");
    assert f + "}\n" == firstKey + ":" + spec + "}" + "\n";
    FieldNotKey(firstKey, spec, key, value, render);
    FormatFieldRaises(f, "}\n", key, value, render);
  }

  /** The prompt's example raises KeyError for its first key, a newline, two spaces and `"intent"`. */
  lemma ExampleRaises(value: string, render: string -> Formatted)
    ensures Format(Example("{", "}"), TaxonomyKey, value, render) == Raised(MissingKey(FirstKey))
  {
    FirstKeyBare();
    ObjectRaises(FirstKey, HeadRest, Inner, Tail, TaxonomyKey, value, render);
  }

  /** A template that is text, the keyword's placeholder, text and a part that raises, raises what that part raises. */
  lemma TemplateRaises(head: Literal, key: string, lead: Literal, rest: string, value: string,
                       render: string -> Formatted, e: FormatError)
    requires Bare(key) && Format(rest, key, value, render) == Raised(e)
    ensures Format(head + ("{" + key + "}") + lead + rest, key, value, render) == Raised(e)
  {
    assert head + ("{" + key + "}") + lead + rest == head + ("{" + key + "}") + (lead + rest);
    FormatAroundKey(head, key, lead + rest, value, render);
    FormatPlain(lead, rest, key, value, render);
  }

  /** Formatting the template as written raises KeyError for the example's first key, whatever the taxonomy. */
  lemma WrittenTemplateRaises(taxonomy: string, render: string -> Formatted)
    ensures Format(WrittenTemplate, TaxonomyKey, taxonomy, render) == Raised(MissingKey(FirstKey))
  {
    ExampleRaises(taxonomy, render);
    TaxonomyKeyBare();
    TemplateRaises(Head, TaxonomyKey, Lead, Example("{", "}"), taxonomy, render, MissingKey(FirstKey));
  }

  /** Escaping a JSON object of that shape doubles its four braces and nothing else. */
  lemma EscapeObject(firstKey: Literal, headRest: Literal, inner: Literal, tail: Literal)
    ensures Escape("{" + firstKey + ":" + headRest + "{" + inner + "}" + tail + "}" + "\n")
         == "{{" + firstKey + ":" + headRest + "{{" + inner + "}}" + tail + "}}" + "\n"
  {
    var p1 := "{" + firstKey;
    var p2 := p1 + ":";
    var p3 := p2 + headRest;
    var p4 := p3 + "{";
    var p5 := p4 + inner;
    var p6 := p5 + "}";
    var p7 := p6 + tail;
    var p8 := p7 + "}";
    EscapeAppend(p8, "\n");
    EscapeAppend(p7, "}");
    EscapeAppend(p6, tail);
    EscapeAppend(p5, "}");
    EscapeAppend(p4, inner);
    EscapeAppend(p3, "{");
    EscapeAppend(p2, headRest);
    EscapeAppend(p1, ":");
    EscapeAppend("{", firstKey);
    EscapePlain(firstKey);
    EscapePlain(":");
    EscapePlain(headRest);
    EscapePlain(inner);
    EscapePlain(tail);
    EscapePlain("\n");
    assert Escape("{") == "{{";
    assert Escape("}") == "}}";
  }

  /** A template that is text, the keyword's placeholder and escaped text gives the text, the value and the unescaped text. */
  lemma TemplateRenders(head: Literal, key: string, tail: string, value: string, render: string -> Formatted)
    requires Bare(key)
    ensures Format(head + ("{" + key + "}") + Escape(tail), key, value, render) == Rendered(head + value + tail)
  {
    FormatAroundKey(head, key, Escape(tail), value, render);
    EscapeRoundTrip(tail, key, value, render);
  }

  /** With the object's braces doubled, formatting puts the value in place and gives the object with single braces. */
  lemma ObjectRenders(head: Literal, key: string, lead: Literal, firstKey: Literal, headRest: Literal, inner: Literal,
                      tail: Literal, value: string, render: string -> Formatted)
    requires Bare(key)
    ensures Format(head + ("{" + key + "}") + lead + ("{{" + firstKey + ":" + headRest + "{{" + inner + "}}" + tail + "}}" + "\n"),
                   key, value, render)
         == Rendered(head + value + lead + ("{" + firstKey + ":" + headRest + "{" + inner + "}" + tail + "}" + "\n"))
  {
    var single := "{" + firstKey + ":" + headRest + "{" + inner + "}" + tail + "}" + "\n";
    var doubled := "{{" + firstKey + ":" + headRest + "{{" + inner + "}}" + tail + "}}" + "\n";
    EscapeObject(firstKey, headRest, inner, tail);
    EscapeAppend(lead, single);
    EscapePlain(lead);
    assert head + ("{" + key + "}") + Escape(lead + single) == head + ("{" + key + "}") + lead + doubled;
    TemplateRenders(head, key, lead + single, value, render);
    assert head + value + (lead + single) == head + value + lead + single;
  }

  /** Formatting the corrected template gives the intended system prompt, whatever the taxonomy. */
  lemma CorrectedTemplateRenders(taxonomy: string, render: string -> Formatted)
    ensures Format(CorrectedTemplate, TaxonomyKey, taxonomy, render) == Rendered(SystemPrompt(taxonomy))
  {
    TaxonomyKeyBare();
    ObjectRenders(Head, TaxonomyKey, Lead, FirstKey, HeadRest, Inner, Tail, taxonomy, render);
  }
}
