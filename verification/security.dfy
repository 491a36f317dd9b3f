/**
 * The security helpers: the permission check, angle-bracket escaping of user
 * input, and the per-client rate limiter.
 *
 * The rate limiter's process-wide counter table is an explicit state value
 * and the clock reading is a parameter.
 */
module Security {
  import opened Wrappers
  import opened OrderedDict
  import opened Values
  import opened Strings

  // ---------------------------------------------------------------------------
  // Permissions.

  /** `check_permission`: an administrator holds every permission; anyone else holds what is listed. */
  function CheckPermission(user: Dict, required: string): Option<bool> {
    var permissions := GetOr(user, "permissions", VList([]));
    match In("admin", permissions)
    case None => None
    case Some(true) => Some(true)
    case Some(false) => In(required, permissions)
  }

  /** For a user whose permissions are a list (or absent), the check is membership of the permission or of "admin". */
  lemma CheckPermissionSpec(user: Dict, required: string, granted: seq<Value>)
    requires Lookup(user, "permissions") == Some(VList(granted)) || (Lookup(user, "permissions").None? && granted == [])
    ensures CheckPermission(user, required) == Some(VStr("admin") in granted || VStr(required) in granted)
  {
  }

  /** An administrator passes every check, whatever else is listed. */
  lemma AdminHoldsEverything(user: Dict, required: string, granted: seq<Value>)
    requires Lookup(user, "permissions") == Some(VList(granted)) && VStr("admin") in granted
    ensures CheckPermission(user, required) == Some(true)
  {
  }

  /** A user without a permissions entry holds nothing. */
  lemma NoPermissionsHoldsNothing(user: Dict, required: string)
    requires !Has(user, "permissions")
    ensures CheckPermission(user, required) == Some(false)
  {
    GetSome(user, "permissions");
  }

  // ---------------------------------------------------------------------------
  // Input sanitising.

  /** `sanitize_input`: `<` becomes `&lt;`, then `>` becomes `&gt;`. */
  function Sanitize(text: string): string {
    ReplaceChar(ReplaceChar(text, '<', "&lt;"), '>', "&gt;")
  }

  /** The escape of one character. */
  function EscapeChar(c: char): string {
    if c == '<' then "&lt;" else if c == '>' then "&gt;" else [c]
  }

  /** Character-by-character escaping, the reference `Sanitize` is checked against. */
  function Escape(text: string): string {
    if |text| == 0 then "" else EscapeChar(text[0]) + Escape(text[1..])
  }

  predicate NoBrackets(s: string) {
    forall i :: 0 <= i < |s| ==> s[i] != '<' && s[i] != '>'
  }

  /** Two chained replacements escape each character independently. */
  lemma {:induction false} SanitizeIsEscape(text: string)
    ensures Sanitize(text) == Escape(text)
  {
    if |text| > 0 {
      SanitizeIsEscape(text[1..]);
      var head: string := if text[0] == '<' then "&lt;" else [text[0]];
      var tail := ReplaceChar(text[1..], '<', "&lt;");
      assert ReplaceChar(text, '<', "&lt;") == head + tail;
      ReplaceCharAppend(head, tail, '>', "&gt;");
      assert ReplaceChar(head, '>', "&gt;") == EscapeChar(text[0]) by {
        if text[0] == '<' {
          assert "&lt;"[1..] == "lt;";
          assert "lt;"[1..] == "t;";
          assert "t;"[1..] == ";";
          assert ";"[1..] == "";
        } else {
          assert head[1..] == "";
        }
      }
    }
  }

  lemma {:induction false} EscapeHasNoBrackets(text: string)
    ensures NoBrackets(Escape(text))
  {
    if |text| > 0 {
      EscapeHasNoBrackets(text[1..]);
      var e := EscapeChar(text[0]);
      assert NoBrackets(e);
      var r := Escape(text);
      assert r == e + Escape(text[1..]);
      forall i | 0 <= i < |r| ensures r[i] != '<' && r[i] != '>' {
        if i >= |e| {
          assert r[i] == Escape(text[1..])[i - |e|];
        }
      }
    }
  }

  lemma {:induction false} EscapeKeepsBracketFree(text: string)
    requires NoBrackets(text)
    ensures Escape(text) == text
  {
    if |text| > 0 {
      EscapeKeepsBracketFree(text[1..]);
      assert text == [text[0]] + text[1..];
    }
  }

  lemma {:induction false} EscapeLength(text: string)
    ensures |Escape(text)| == |text| + 3 * Count(text, '<') + 3 * Count(text, '>')
  {
    if |text| > 0 {
      EscapeLength(text[1..]);
    }
  }

  /**
   * Sanitised text holds no angle bracket, sanitising is idempotent, it
   * changes exactly the texts that hold a bracket, and each bracket grows
   * the text by three characters.
   */
  lemma SanitizeSpec(text: string)
    ensures NoBrackets(Sanitize(text))
    ensures Sanitize(Sanitize(text)) == Sanitize(text)
    ensures Sanitize(text) == text <==> NoBrackets(text)
    ensures |Sanitize(text)| == |text| + 3 * Count(text, '<') + 3 * Count(text, '>')
  {
    SanitizeIsEscape(text);
    EscapeHasNoBrackets(text);
    SanitizeIsEscape(Sanitize(text));
    EscapeKeepsBracketFree(Sanitize(text));
    EscapeLength(text);
    if NoBrackets(text) {
      EscapeKeepsBracketFree(text);
    }
  }

  // ---------------------------------------------------------------------------
  // Rate limiting.

  /** The configured defaults. */
  const DefaultMaxRequests: int := 100
  const DefaultTimeframe: int := 3600

  /** One client's counter: requests admitted in the current window and when it ends. */
  datatype Window = Window(count: int, resetTime: real)

  /** `RATE_LIMIT_COUNTER`, keyed by client host. */
  type Counters = map<string, Window>

  datatype Verdict = Verdict(allowed: bool, counters: Counters)

  /** `x or default` for an optional integer: None and 0 are both falsy. */
  function OrDefault(x: Option<int>, default: int): (r: int)
    ensures x.Some? && x.value != 0 ==> r == x.value
    ensures x.None? || x.value == 0 ==> r == default
  {
    if x.Some? && x.value != 0 then x.value else default
  }

  /** The client id: the host, or "unknown" when the request carries no client. */
  function ClientId(host: Option<string>): string {
    if host.Some? then host.value else "unknown"
  }

  /** The window a request sees: a fresh one for a new client, a restarted one once the old one has passed. */
  function Current(counters: Counters, client: string, now: real, timeframe: int): Window {
    var w := if client in counters then counters[client] else Window(0, now + timeframe as real);
    if now > w.resetTime then Window(0, now + timeframe as real) else w
  }

  /** `rate_limit_check`, with `enabled` the configured switch. */
  function RateLimitCheck(enabled: bool, counters: Counters, host: Option<string>, now: real,
                          maxRequests: Option<int>, timeframe: Option<int>): Verdict
  {
    if !enabled then Verdict(true, counters)
    else
      var limit := OrDefault(maxRequests, DefaultMaxRequests);
      var frame := OrDefault(timeframe, DefaultTimeframe);
      var client := ClientId(host);
      var w := Current(counters, client, now, frame);
      if w.count >= limit then Verdict(false, counters[client := w])
      else Verdict(true, counters[client := Window(w.count + 1, w.resetTime)])
  }

  /**
   * The limiter's contract: disabled, it admits and touches nothing; enabled,
   * it touches only the caller's counter, which it creates (count 0, window
   * ending one timeframe from now) on a first request and restarts only once
   * the clock is strictly past its end; it admits exactly while the count is
   * below the limit, counting what it admits.
   */
  lemma RateLimitSpec(enabled: bool, counters: Counters, host: Option<string>, now: real,
                      maxRequests: Option<int>, timeframe: Option<int>)
    ensures var v := RateLimitCheck(enabled, counters, host, now, maxRequests, timeframe);
      var client := ClientId(host);
      var limit := OrDefault(maxRequests, DefaultMaxRequests);
      var frame := OrDefault(timeframe, DefaultTimeframe);
      var w := if client in counters && now <= counters[client].resetTime then counters[client]
               else Window(0, now + frame as real);
      && (!enabled ==> v == Verdict(true, counters))
      && (enabled ==>
            && v.counters.Keys == counters.Keys + {client}
            && (forall c :: c in counters && c != client ==> v.counters[c] == counters[c])
            && v.allowed == (w.count < limit)
            && v.counters[client] == (if v.allowed then Window(w.count + 1, w.resetTime) else w))
  {
  }

  /** A window never admits past the limit: a counter at or below the limit stays at or below it. */
  lemma CountStaysBounded(counters: Counters, host: Option<string>, now: real, maxRequests: Option<int>, timeframe: Option<int>)
    requires var client := ClientId(host);
      client in counters ==> counters[client].count <= OrDefault(maxRequests, DefaultMaxRequests)
    requires 0 <= OrDefault(maxRequests, DefaultMaxRequests)
    ensures var v := RateLimitCheck(true, counters, host, now, maxRequests, timeframe);
      v.counters[ClientId(host)].count <= OrDefault(maxRequests, DefaultMaxRequests)
  {
  }

  /** Requests from one client at the given times, one after another: how many were admitted, and the final table. */
  function Run(counters: Counters, host: Option<string>, times: seq<real>,
               maxRequests: Option<int>, timeframe: Option<int>): (int, Counters)
    decreases |times|
  {
    if |times| == 0 then (0, counters)
    else
      var v := RateLimitCheck(true, counters, host, times[0], maxRequests, timeframe);
      var rest := Run(v.counters, host, times[1..], maxRequests, timeframe);
      ((if v.allowed then 1 else 0) + rest.0, rest.1)
  }

  /**
   * Within one window, a client with `c` requests already counted is
   * admitted at most `limit - c` more times, and the window keeps its end.
   */
  lemma {:induction false} AtMostLimitPerWindow(counters: Counters, host: Option<string>, times: seq<real>,
                                               maxRequests: Option<int>, timeframe: Option<int>)
    requires ClientId(host) in counters
    requires forall i :: 0 <= i < |times| ==> times[i] <= counters[ClientId(host)].resetTime
    ensures var w := counters[ClientId(host)];
      var limit := OrDefault(maxRequests, DefaultMaxRequests);
      var r := Run(counters, host, times, maxRequests, timeframe);
      && ClientId(host) in r.1
      && r.1[ClientId(host)].resetTime == w.resetTime
      && r.0 <= (if w.count < limit then limit - w.count else 0)
      && r.1[ClientId(host)].count == w.count + r.0
  {
    if |times| > 0 {
      var client := ClientId(host);
      var v := RateLimitCheck(true, counters, host, times[0], maxRequests, timeframe);
      assert v.counters[client].resetTime == counters[client].resetTime;
      AtMostLimitPerWindow(v.counters, host, times[1..], maxRequests, timeframe);
    }
  }
}
