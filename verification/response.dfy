/**
 * Turning an operation result into the text spoken back to the user
 * (`generate_text_response` and `format_data_response`).
 *
 * `str()` of a non-string value is the parameter `show` and `json.dumps`
 * is `dumps`; text-to-speech is not modelled.
 */
module Response {
  import opened Wrappers
  import opened OrderedDict
  import opened Values
  import opened Strings

  const ErrorPrefix: string := "I'm sorry, but I encountered an error: "

  /** `key.replace("_", " ").title()`. */
  function Readable(key: string): string {
    Title(ReplaceChar(key, '_', " "))
  }

  /** The lines of one nested dict, one per entry. */
  function EntryLines(d: Dict, indent: string, show: Value -> string): (lines: seq<string>)
    ensures |lines| == |d|
  {
    if |d| == 0 then []
    else [indent + Readable(d[0].0) + ": " + Str(d[0].1, show)] + EntryLines(d[1..], indent, show)
  }

  /** The lines of a list: a dict item opens with " -" and lists its entries, anything else is " - item". */
  function ItemLines(items: seq<Value>, show: Value -> string): seq<string> {
    if |items| == 0 then []
    else
      var first := match items[0]
        case VDict(d) => [" -"] + EntryLines(d, "   ", show)
        case v => [" - " + Str(v, show)];
      first + ItemLines(items[1..], show)
  }

  /** The lines one top-level entry contributes. */
  function ValueLines(key: string, value: Value, show: Value -> string): seq<string> {
    match value
    case VDict(d) => ["\n" + Readable(key) + ":"] + EntryLines(d, " - ", show)
    case VList(items) => ["\n" + Readable(key) + ":"] + ItemLines(items, show)
    case v => ["\n" + Readable(key) + ": " + Str(v, show)]
  }

  /** A key `format_data_response` skips. */
  predicate Private(key: string) {
    StartsWith(key, "_")
  }

  /** The lines of all entries, skipping private keys. */
  function DataLines(data: Dict, show: Value -> string): seq<string> {
    if |data| == 0 then []
    else (if Private(data[0].0) then [] else ValueLines(data[0].0, data[0].1, show)) + DataLines(data[1..], show)
  }

  /** `format_data_response`: the `message` verbatim when there is one, else a header and the entries. */
  function FormatData(data: Dict, operationInfo: string, show: Value -> string): Value {
    match Lookup(data, "message")
    case Some(m) => m
    case None => VStr(Join(["Here's the information" + operationInfo + ":"] + DataLines(data, show), "\n"))
  }

  /** The ` for <operation>` suffix, or the AttributeError `.get` raises on a `_metadata` that is not a dict. */
  function OperationInfo(r: Dict, show: Value -> string): Result<string> {
    match Lookup(r, "_metadata")
    case None => Ok("")
    case Some(VDict(m)) => Ok(" for " + Str(GetOr(m, "operation", VStr("unknown")), show))
    case Some(other) => Err("'_metadata' has no attribute 'get'")
  }

  /** `generate_text_response`. */
  function GenerateTextResponse(r: Dict, show: Value -> string, dumps: Dict -> string): Result<Value> {
    match Lookup(r, "error")
    case Some(e) => Ok(VStr(ErrorPrefix + Str(e, show)))
    case None =>
      match Lookup(r, "formatted_response")
      case Some(f) => Ok(f)
      case None =>
        if Lookup(r, "result").Some? && Lookup(r, "result").value.VStr? then Ok(Lookup(r, "result").value)
        else
          match OperationInfo(r, show)
          case Err(e) => Err(e)
          case Ok(info) =>
            match Lookup(r, "data")
            case Some(VDict(d)) => Ok(FormatData(d, info, show))
            case _ => Ok(VStr(dumps(r)))
  }

  /**
   * The precedence of `generate_text_response`: an error wins and is
   * apologised for; then a formatted response, verbatim; then a string
   * result; then a dict of data, formatted with the operation's name.
   */
  lemma GenerateTextResponseSpec(r: Dict, show: Value -> string, dumps: Dict -> string)
    ensures var t := GenerateTextResponse(r, show, dumps);
      && (Lookup(r, "error").Some? ==>
            t.Ok? && t.value.VStr? && StartsWith(t.value.s, ErrorPrefix)
            && EndsWith(t.value.s, Str(Lookup(r, "error").value, show)))
      && (Lookup(r, "error").None? && Lookup(r, "formatted_response").Some? ==> t == Ok(Lookup(r, "formatted_response").value))
      && ((Lookup(r, "error").None? && Lookup(r, "formatted_response").None?
           && Lookup(r, "result").Some? && Lookup(r, "result").value.VStr?) ==>
            t == Ok(Lookup(r, "result").value))
  {
    if Lookup(r, "error").Some? {
      var s := ErrorPrefix + Str(Lookup(r, "error").value, show);
      assert s[..|ErrorPrefix|] == ErrorPrefix;
      assert s[|s| - |Str(Lookup(r, "error").value, show)|..] == Str(Lookup(r, "error").value, show);
    }
  }

  /** A dict of data is formatted, with ` for <operation>` taken from a dict `_metadata` and `unknown` when it names none. */
  lemma GenerateFormatsData(r: Dict, show: Value -> string, dumps: Dict -> string, d: Dict, meta: Dict)
    requires Lookup(r, "error").None? && Lookup(r, "formatted_response").None?
    requires Lookup(r, "result").None? || !Lookup(r, "result").value.VStr?
    requires Lookup(r, "data") == Some(VDict(d))
    requires Lookup(r, "_metadata") == Some(VDict(meta))
    ensures GenerateTextResponse(r, show, dumps) ==
      Ok(FormatData(d, " for " + Str(GetOr(meta, "operation", VStr("unknown")), show), show))
  {
  }

  /**
   * Without an error, a formatted response or a string result: a `_metadata`
   * that is not a dict makes the call fail, and anything but a dict of data
   * is spoken as its JSON serialisation.
   */
  lemma GenerateFallsBack(r: Dict, show: Value -> string, dumps: Dict -> string)
    requires Lookup(r, "error").None? && Lookup(r, "formatted_response").None?
    requires Lookup(r, "result").None? || !Lookup(r, "result").value.VStr?
    ensures (Lookup(r, "_metadata").Some? && !Lookup(r, "_metadata").value.VDict?) <==>
      GenerateTextResponse(r, show, dumps).Err?
    ensures ((Lookup(r, "_metadata").None? || Lookup(r, "_metadata").value.VDict?) &&
             (Lookup(r, "data").None? || !Lookup(r, "data").value.VDict?)) ==>
      GenerateTextResponse(r, show, dumps) == Ok(VStr(dumps(r)))
  {
  }

  // ---------------------------------------------------------------------------
  // Properties of the data rendering.

  /** A readable key has no underscore left. */
  lemma {:induction false} ReadableHasNoUnderscore(key: string)
    ensures Count(Readable(key), '_') == 0
  {
    var spaced := ReplaceChar(key, '_', " ");
    NoUnderscoreAfterReplace(key);
    TitleKeepsCount(spaced);
  }

  lemma {:induction false} NoUnderscoreAfterReplace(s: string)
    ensures forall i :: 0 <= i < |ReplaceChar(s, '_', " ")| ==> ReplaceChar(s, '_', " ")[i] != '_'
  {
    if |s| > 0 {
      NoUnderscoreAfterReplace(s[1..]);
      var head: string := if s[0] == '_' then " " else [s[0]];
      assert ReplaceChar(s, '_', " ") == head + ReplaceChar(s[1..], '_', " ");
    }
  }

  /** Title-casing never produces an underscore from something else. */
  lemma TitleKeepsCount(s: string)
    requires forall i :: 0 <= i < |s| ==> s[i] != '_'
    ensures Count(Title(s), '_') == 0
  {
    var t := Title(s);
    forall i | 0 <= i < |t| ensures t[i] != '_' {
    }
    NoneCounted(t, '_');
  }

  lemma {:induction false} NoneCounted(s: string, c: char)
    requires forall i :: 0 <= i < |s| ==> s[i] != c
    ensures Count(s, c) == 0
  {
    if |s| > 0 {
      NoneCounted(s[1..], c);
    }
  }

  /** The public entries of a dict, in order. */
  function Public(data: Dict): Dict {
    Filter(data, (k: string, v: Value) => !Private(k))
  }

  lemma {:induction false} DataLinesPublic(data: Dict, show: Value -> string)
    ensures DataLines(data, show) == DataLines(Public(data), show)
  {
    if |data| > 0 {
      DataLinesPublic(data[1..], show);
      if !Private(data[0].0) {
        assert Public(data) == [data[0]] + Public(data[1..]);
        assert ([data[0]] + Public(data[1..]))[1..] == Public(data[1..]);
      }
    }
  }

  lemma {:induction false} LookupPublic(data: Dict, k: string)
    requires !Private(k)
    ensures Lookup(Public(data), k) == Lookup(data, k)
  {
    if |data| > 0 {
      LookupPublic(data[1..], k);
      if !Private(data[0].0) {
        assert ([data[0]] + Public(data[1..]))[1..] == Public(data[1..]);
      } else {
        assert data[0].0 != k by {
          assert StartsWith(data[0].0, "_");
        }
      }
    }
  }

  /**
   * Private keys never reach the text: the rendering of a dict is the
   * rendering of its public entries alone.
   */
  lemma FormatDataIgnoresPrivate(data: Dict, operationInfo: string, show: Value -> string)
    ensures FormatData(data, operationInfo, show) == FormatData(Public(data), operationInfo, show)
  {
    DataLinesPublic(data, show);
    assert !Private("message") by {
      assert "message"[0] != "_"[0];
    }
    LookupPublic(data, "message");
  }

  /** Without a message, the text opens with the header line, followed by the entries' lines. */
  lemma FormatDataHeader(data: Dict, operationInfo: string, show: Value -> string)
    requires Lookup(data, "message").None?
    ensures FormatData(data, operationInfo, show).VStr?
    ensures StartsWith(FormatData(data, operationInfo, show).s, "Here's the information" + operationInfo + ":")
    ensures |DataLines(data, show)| == 0 ==>
      FormatData(data, operationInfo, show) == VStr("Here's the information" + operationInfo + ":")
  {
    var header := "Here's the information" + operationInfo + ":";
    var lines := [header] + DataLines(data, show);
    assert lines[1..] == DataLines(data, show);
    if |DataLines(data, show)| > 0 {
      var j := header + "\n" + Join(lines[1..], "\n");
      assert j[..|header|] == header;
    }
  }

  /** With a message, the data's other entries do not matter. */
  lemma FormatDataMessage(data: Dict, operationInfo: string, show: Value -> string)
    requires Lookup(data, "message").Some?
    ensures FormatData(data, operationInfo, show) == Lookup(data, "message").value
  {
  }
}
