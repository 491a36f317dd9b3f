/**
 * Python's `str.format` called with a single keyword argument, as intent
 * recognition formats its system prompt. The template is read left to
 * right: `{{` and `}}` stand for single braces, a `{` opens a replacement
 * field, and the first thing that goes wrong raises.
 *
 * A field is read as CPython's `parse_field` reads it. Its name runs to the
 * first `}`, `:` or `!` that is not inside a `[...]` index, and a `{` in the
 * name raises. After a `!` comes one conversion character and then `}` or
 * `:`. After the `:` comes the format spec, in which braces nest, and the
 * field closes at the `}` that balances its `{`.
 *
 * The argument a field names is the part of its name before the first `.` or
 * `[`. An empty or numeric argument name asks for a positional argument, of
 * which there are none; any other name must be the keyword. A field that is
 * exactly the keyword is replaced by the value. What a conversion, format
 * spec, attribute or index does to the value is the oracle `render`.
 */
module StrFormat {
  import opened Wrappers
  import opened Strings

  /** Why `str.format` raised. */
  datatype FormatError =
    | SingleOpen              // ValueError: the template ends with a lone `{`
    | SingleClose             // ValueError: a `}` that neither is doubled nor closes a field
    | Unclosed                // ValueError: the template ends inside a field's name or format spec
    | OpenInName              // ValueError: a `{` inside a field name
    | BadConversion           // ValueError: a `!` with no conversion character, or one followed by neither `}` nor `:`
    | Positional(name: string)  // IndexError: an empty or numeric name, with no positional arguments
    | MissingKey(key: string)   // KeyError: a name that is not the keyword argument

  /** The formatted text, or the exception raised. */
  datatype Formatted = Rendered(text: string) | Raised(error: FormatError)

  /** `text` followed by what the rest of the template gives; an error in the rest is the error. */
  function Then(text: string, rest: Formatted): Formatted {
    match rest
    case Rendered(t) => Rendered(text + t)
    case Raised(e) => Raised(e)
  }

  lemma ThenThen(a: string, b: string, rest: Formatted)
    ensures Then(a, Then(b, rest)) == Then(a + b, rest)
  {
    if rest.Rendered? {
      assert a + (b + rest.text) == (a + b) + rest.text;
    }
  }

  /** Text without braces. */
  predicate Plain(s: string) {
    forall i :: 0 <= i < |s| ==> s[i] != '{' && s[i] != '}'
  }

  /** Text that `str.format` copies unchanged. */
  type Literal = s: string | Plain(s)

  lemma PlainAppend(a: string, b: string)
    requires Plain(a) && Plain(b)
    ensures Plain(a + b)
  {
    forall i | 0 <= i < |a + b| ensures (a + b)[i] != '{' && (a + b)[i] != '}' {
      if i < |a| {
        assert (a + b)[i] == a[i];
      } else {
        assert (a + b)[i] == b[i - |a|];
      }
    }
  }

  /** Literal pieces run together. */
  function Cat(parts: seq<Literal>): Literal {
    if |parts| == 0 then ""
    else
      PlainAppend(parts[0], Cat(parts[1..]));
      parts[0] + Cat(parts[1..])
  }

  // ---------------------------------------------------------------------------
  // Reading a field.

  /** `o` moved on by `k` characters. */
  function Shift(o: Option<nat>, k: nat): Option<nat> {
    if o.Some? then Some(o.value + k) else None
  }

  /**
   * The index in `s` of the `}` that closes a field's format spec when
   * `depth` braces are open: each `{` opens one more and each `}` closes one.
   */
  function FieldEnd(s: string, depth: nat): (r: Option<nat>)
    requires depth > 0
    ensures r.Some? ==> r.value < |s| && s[r.value] == '}'
    decreases |s|
  {
    if |s| == 0 then None
    else if s[0] == '}' && depth == 1 then Some(0)
    else
      var d := if s[0] == '{' then depth + 1 else if s[0] == '}' then depth - 1 else depth;
      Shift(FieldEnd(s[1..], d), 1)
  }

  /** From `j` on, where an index that opened with `[` is closed by `]`, or the end. */
  function BracketEnd(f: string, j: nat): (e: nat)
    requires j <= |f|
    ensures j <= e <= |f|
    decreases |f| - j
  {
    if j == |f| || f[j] == ']' then j else BracketEnd(f, j + 1)
  }

  /** Where the field name ends: at the first `:`, `!`, `{` or `}`, stepping over a `[...]` index. */
  function NameEnd(f: string, i: nat): (e: nat)
    requires i <= |f|
    ensures i <= e <= |f|
    decreases |f| - i
  {
    if i == |f| || f[i] in ":!{}" then i
    else if f[i] == '[' then NameEnd(f, BracketEnd(f, i + 1))
    else NameEnd(f, i + 1)
  }

  /** How a field read from just after its `{` ends: at the index of its closing `}`, or with an error. */
  datatype Close = Closes(at: nat) | Breaks(error: FormatError)

  /** The format spec starting at `p` closes at the `}` that balances the field's `{`. */
  function SpecClose(t: string, p: nat): (r: Close)
    requires p <= |t|
    ensures r.Closes? ==> p <= r.at < |t| && t[r.at] == '}'
  {
    match FieldEnd(t[p..], 1)
    case None => Breaks(Unclosed)
    case Some(k) => Closes(p + k)
  }

  /** Where the field that `t` starts with closes: CPython's `parse_field`. */
  function FieldClose(t: string): (r: Close)
    ensures r.Closes? ==> r.at < |t| && t[r.at] == '}'
  {
    var e := NameEnd(t, 0);
    if e == |t| then Breaks(Unclosed)
    else if t[e] == '{' then Breaks(OpenInName)
    else if t[e] == '}' then Closes(e)
    else if t[e] == ':' then SpecClose(t, e + 1)
    else if e + 1 == |t| then Breaks(BadConversion)
    else if e + 2 == |t| then Breaks(Unclosed)
    else if t[e + 2] == '}' then Closes(e + 2)
    else if t[e + 2] == ':' then SpecClose(t, e + 3)
    else Breaks(BadConversion)
  }

  /** The part of `s` before the first character in `stops`. */
  function Upto(s: string, stops: string): (r: string)
    ensures |r| <= |s| && r == s[..|r|]
    ensures (forall i :: 0 <= i < |s| ==> s[i] !in stops) ==> r == s
  {
    if |s| == 0 || s[0] in stops then "" else [s[0]] + Upto(s[1..], stops)
  }

  /** A name that names a keyword argument and nothing more: no index, attribute, conversion or spec. */
  predicate Bare(name: string) {
    && |name| > 0
    && !AllDigits(name)
    && forall i :: 0 <= i < |name| ==> name[i] !in ":!{}[]."
  }

  /**
   * The text the field `f`, read between its braces, gives. `render` is what a
   * conversion, format spec, attribute or index does to the keyword's value.
   */
  function Field(f: string, key: string, value: string, render: string -> Formatted): Formatted {
    var arg := Upto(f[..NameEnd(f, 0)], ".[");
    if |arg| == 0 || AllDigits(arg) then Raised(Positional(arg))
    else if arg != key then Raised(MissingKey(arg))
    else if f == key then Rendered(value)
    else render(f)
  }

  // ---------------------------------------------------------------------------
  // The template.

  /** `template.format(key=value)`. */
  function Format(s: string, key: string, value: string, render: string -> Formatted): Formatted
    decreases |s|
  {
    if |s| == 0 then Rendered("")
    else if s[0] == '{' then
      if |s| == 1 then Raised(SingleOpen)
      else if s[1] == '{' then Then("{", Format(s[2..], key, value, render))
      else
        match FieldClose(s[1..])
        case Breaks(e) => Raised(e)
        case Closes(k) =>
          match Field(s[1..k + 1], key, value, render)
          case Raised(e) => Raised(e)
          case Rendered(t) => Then(t, Format(s[k + 2..], key, value, render))
    else if s[0] == '}' then
      if |s| >= 2 && s[1] == '}' then Then("}", Format(s[2..], key, value, render))
      else Raised(SingleClose)
    else Then([s[0]], Format(s[1..], key, value, render))
  }

  /** `s` with every brace doubled, so that formatting gives `s` back. */
  function Escape(s: string): (r: string)
    ensures |r| >= |s|
  {
    if |s| == 0 then ""
    else (if s[0] == '{' || s[0] == '}' then [s[0], s[0]] else [s[0]]) + Escape(s[1..])
  }

  /** Brace-free text is copied as it is. */
  lemma {:induction false} FormatPlain(lit: string, rest: string, key: string, value: string, render: string -> Formatted)
    requires Plain(lit)
    ensures Format(lit + rest, key, value, render) == Then(lit, Format(rest, key, value, render))
    decreases |lit|
  {
    if |lit| == 0 {
      assert lit + rest == rest;
      assert Then("", Format(rest, key, value, render)) == Format(rest, key, value, render);
    } else {
      assert (lit + rest)[0] == lit[0];
      assert (lit + rest)[1..] == lit[1..] + rest;
      FormatPlain(lit[1..], rest, key, value, render);
      ThenThen([lit[0]], lit[1..], Format(rest, key, value, render));
      assert [lit[0]] + lit[1..] == lit;
    }
  }

  /** Formatting the escaped text gives the text back, whatever follows it. */
  lemma {:induction false} FormatEscape(s: string, rest: string, key: string, value: string, render: string -> Formatted)
    ensures Format(Escape(s) + rest, key, value, render) == Then(s, Format(rest, key, value, render))
    decreases |s|
  {
    if |s| == 0 {
      assert Escape(s) + rest == rest;
      assert Then("", Format(rest, key, value, render)) == Format(rest, key, value, render);
    } else {
      var head := if s[0] == '{' || s[0] == '}' then [s[0], s[0]] else [s[0]];
      var t := Escape(s) + rest;
      assert t == head + (Escape(s[1..]) + rest);
      assert t[0] == s[0];
      FormatEscape(s[1..], rest, key, value, render);
      if s[0] == '{' || s[0] == '}' {
        assert t[1] == s[0];
        assert t[2..] == Escape(s[1..]) + rest;
      } else {
        assert t[1..] == Escape(s[1..]) + rest;
      }
      ThenThen([s[0]], s[1..], Format(rest, key, value, render));
      assert [s[0]] + s[1..] == s;
    }
  }

  /** Escaping is a round trip: `Escape(s).format(...)` is `s`. */
  lemma EscapeRoundTrip(s: string, key: string, value: string, render: string -> Formatted)
    ensures Format(Escape(s), key, value, render) == Rendered(s)
  {
    FormatEscape(s, "", key, value, render);
    assert Escape(s) + "" == Escape(s);
    assert s + "" == s;
  }

  /** Escaping distributes over concatenation. */
  lemma {:induction false} EscapeAppend(a: string, b: string)
    ensures Escape(a + b) == Escape(a) + Escape(b)
    decreases |a|
  {
    if |a| == 0 {
      assert a + b == b;
    } else {
      var head := if a[0] == '{' || a[0] == '}' then [a[0], a[0]] else [a[0]];
      assert (a + b)[0] == a[0] && (a + b)[1..] == a[1..] + b;
      assert Escape(a + b) == head + Escape(a[1..] + b);
      EscapeAppend(a[1..], b);
      assert Escape(a) == head + Escape(a[1..]);
      assert head + (Escape(a[1..]) + Escape(b)) == (head + Escape(a[1..])) + Escape(b);
    }
  }

  /** Escaping leaves brace-free text alone. */
  lemma {:induction false} EscapePlain(a: string)
    requires Plain(a)
    ensures Escape(a) == a
    decreases |a|
  {
    if |a| > 0 {
      EscapePlain(a[1..]);
      assert [a[0]] + a[1..] == a;
    }
  }

  /** Through brace-free text the count of open fields does not change. */
  lemma {:induction false} FieldEndPlain(lit: string, rest: string, depth: nat)
    requires Plain(lit) && depth > 0
    ensures FieldEnd(lit + rest, depth) == Shift(FieldEnd(rest, depth), |lit|)
    decreases |lit|
  {
    if |lit| == 0 {
      assert lit + rest == rest;
    } else {
      assert (lit + rest)[0] == lit[0];
      assert (lit + rest)[1..] == lit[1..] + rest;
      FieldEndPlain(lit[1..], rest, depth);
    }
  }

  /** A field name ends at the first `:`, `!`, `{` or `}` when no `[` comes before it. */
  lemma {:induction false} NameEndAt(f: string, i: nat, k: nat)
    requires i <= k <= |f|
    requires forall j :: i <= j < k ==> f[j] !in ":!{}["
    requires k == |f| || f[k] in ":!{}"
    ensures NameEnd(f, i) == k
    decreases k - i
  {
    if i < k {
      NameEndAt(f, i + 1, k);
    }
  }

  /** A field that is exactly the keyword gives the value. */
  lemma FieldIsKey(key: string, value: string, render: string -> Formatted)
    requires Bare(key)
    ensures Field(key, key, value, render) == Rendered(value)
  {
    NameEndAt(key, 0, |key|);
    assert key[..|key|] == key;
  }

  /** A field whose bare name is not the keyword raises KeyError, whatever format spec follows the `:`. */
  lemma FieldNotKey(name: string, spec: string, key: string, value: string, render: string -> Formatted)
    requires Bare(name) && name != key
    ensures Field(name + ":" + spec, key, value, render) == Raised(MissingKey(name))
  {
    var f := name + ":" + spec;
    assert forall j :: 0 <= j < |name| ==> f[j] == name[j];
    assert f[|name|] == ':';
    NameEndAt(f, 0, |name|);
    assert f[..|name|] == name;
  }

  /** The placeholder of the keyword is replaced by its value. */
  lemma FormatKey(key: string, rest: string, value: string, render: string -> Formatted)
    requires Bare(key)
    ensures Format("{" + key + "}" + rest, key, value, render) == Then(value, Format(rest, key, value, render))
  {
    var s := "{" + key + "}" + rest;
    var t := key + "}" + rest;
    assert s[1] == key[0];
    assert s[1..] == t;
    assert forall j :: 0 <= j < |key| ==> t[j] == key[j];
    assert t[|key|] == '}';
    NameEndAt(t, 0, |key|);
    assert s[1..|key| + 1] == key;
    FieldIsKey(key, value, render);
    assert s[|key| + 2..] == rest;
  }

  /** Around the keyword's placeholder, the text before it is copied and the placeholder replaced. */
  lemma FormatAroundKey(head: Literal, key: string, rest: string, value: string, render: string -> Formatted)
    requires Bare(key)
    ensures Format(head + ("{" + key + "}") + rest, key, value, render) == Then(head + value, Format(rest, key, value, render))
  {
    assert head + ("{" + key + "}") + rest == head + ("{" + key + "}" + rest);
    FormatPlain(head, "{" + key + "}" + rest, key, value, render);
    FormatKey(key, rest, value, render);
    ThenThen(head, value, Format(rest, key, value, render));
  }

  /** A `{` opens one more brace. */
  lemma FieldEndOpen(s: string, depth: nat)
    requires depth > 0
    ensures FieldEnd("{" + s, depth) == Shift(FieldEnd(s, depth + 1), 1)
  {
    assert ("{" + s)[1..] == s;
  }

  /** A `}` closes the spec when it is the last brace open, and one brace otherwise. */
  lemma FieldEndClose(s: string, depth: nat)
    requires depth > 0
    ensures FieldEnd("}" + s, depth) == if depth == 1 then Some(0) else Shift(FieldEnd(s, depth - 1), 1)
  {
    assert ("}" + s)[1..] == s;
  }

  /** Brace-free text and a `}` close one brace, right after the text. */
  lemma PlainThenClose(p: string, after: string, depth: nat)
    requires Plain(p) && depth > 0
    ensures FieldEnd(p + ("}" + after), depth) == if depth == 1 then Some(|p|) else Shift(FieldEnd(after, depth - 1), |p| + 1)
  {
    FieldEndClose(after, depth);
    FieldEndPlain(p, "}" + after, depth);
  }

  /** A format spec holding one nested pair of braces ends at the `}` that follows it. */
  lemma FieldEndNested(a: string, inner: string, tail: string, after: string)
    requires Plain(a) && Plain(inner) && Plain(tail)
    ensures FieldEnd(a + "{" + inner + "}" + tail + "}" + after, 1) == Some(|a| + |inner| + |tail| + 2)
  {
    var r3 := tail + ("}" + after);
    var r2 := inner + ("}" + r3);
    assert a + "{" + inner + "}" + tail + "}" + after == a + ("{" + r2);
    PlainThenClose(tail, after, 1);
    PlainThenClose(inner, r3, 2);
    FieldEndOpen(r2, 1);
    FieldEndPlain(a, "{" + r2, 1);
  }

  /** A field that raises makes the whole template raise. */
  lemma FormatFieldRaises(f: string, rest: string, key: string, value: string, render: string -> Formatted)
    requires |f| > 0 && f[0] != '{'
    requires FieldClose(f + rest) == Closes(|f|)
    requires Field(f, key, value, render).Raised?
    ensures Format("{" + f + rest, key, value, render) == Field(f, key, value, render)
  {
    var s := "{" + f + rest;
    assert s[1..] == f + rest;
    assert s[1] == f[0];
    assert s[1..|f| + 1] == f;
  }

  /** A field whose plain name is followed by `:` closes where its format spec does. */
  lemma SpecFieldClose(name: string, spec: string, after: string)
    requires forall j :: 0 <= j < |name| ==> name[j] !in ":!{}["
    requires FieldEnd(spec + "}" + after, 1) == Some(|spec|)
    ensures FieldClose(name + ":" + spec + "}" + after) == Closes(|name| + 1 + |spec|)
  {
    var t := name + ":" + spec + "}" + after;
    assert forall j :: 0 <= j < |name| ==> t[j] == name[j];
    assert t[|name|] == ':';
    NameEndAt(t, 0, |name|);
    assert t[|name| + 1..] == spec + "}" + after;
  }

  /** Inside an index a `{` is part of the name, so the argument is looked up first: `"{a[{]}".format(b=...)` raises KeyError for `a`. */
  lemma IndexHidesOpen(value: string, render: string -> Formatted)
    ensures Format("{a[{]}", "b", value, render) == Raised(MissingKey("a"))
  {
    var s := "{a[{]}";
    var t, f := "a[{]}", "a[{]";
    assert s[1..] == t && t[..4] == f && s[1..5] == f;
    assert BracketEnd(t, 2) == 3 && NameEnd(t, 3) == 4;
    assert FieldClose(t) == Closes(4);
    assert BracketEnd(f, 2) == 3 && NameEnd(f, 3) == 4;
    assert NameEnd(f, 0) == NameEnd(f, 1) == NameEnd(f, 3);
    assert f[..4] == f;
    assert Upto(f, ".[") == "a" && !AllDigits("a");
    assert Field(f, "b", value, render) == Raised(MissingKey("a"));
  }

  /** Inside an index a `}` does not close the field: `"{a[}]}".format(a=...)` indexes the value with `}`. */
  lemma IndexHidesClose(value: string, render: string -> Formatted)
    ensures Format("{a[}]}", "a", value, render) == Then("", render("a[}]"))
  {
    var s := "{a[}]}";
    var t, f := "a[}]}", "a[}]";
    assert s[1..] == t && t[..4] == f && s[1..5] == f && s[6..] == "";
    assert BracketEnd(t, 2) == 3 && NameEnd(t, 3) == 4;
    assert FieldClose(t) == Closes(4);
    assert BracketEnd(f, 2) == 3 && NameEnd(f, 3) == 4;
    assert NameEnd(f, 0) == NameEnd(f, 1) == NameEnd(f, 3);
    assert f[..4] == f;
    assert Upto(f, ".[") == "a" && !AllDigits("a");
    assert Field(f, "a", value, render) == render(f);
    if render(f).Rendered? {
      assert render(f).text + "" == "" + render(f).text;
    }
  }
}
