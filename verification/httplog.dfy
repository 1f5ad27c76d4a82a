// The request-logging middleware: a bounded capture of the request or
// response body, which request headers are logged and how, when a captured
// body is attached to the log entry, and the level an entry is logged at.

module HttpLog {
  import opened Wrappers
  import opened Text
  import HttpExt

  type Bytes = HttpExt.Bytes

  // ---------------------------------------------------------------------
  // Configuration
  // ---------------------------------------------------------------------

  /** The options of `Logging` that decide what is logged. */
  datatype LogConfig = LogConfig(
    logRequestBody: bool,
    logResponseBody: bool,
    logResponseHeaders: bool,
    maxBodySize: int,
    metrics: bool,
    whitelist: seq<string>)

  /** 20 KB of body, request bodies only, five whitelisted headers. */
  const DefaultLogConfig: LogConfig := LogConfig(
    true, false, false, 1024 * 20, true,
    ["User-Agent", "Authorization", "Origin", "Referer", "Content-Type"])

  datatype LoggingOption =
    | SkipRequestBodyLogging
    | LogResponseBody
    | LogMaxBodySize(size: int)
    | LogResponseHeaders
    | DisableMetrics
    | HeadersWhiteList(names: seq<string>)

  function ApplyLoggingOption(c: LogConfig, opt: LoggingOption): (r: LogConfig)
    ensures opt.HeadersWhiteList? ==> r.whitelist == opt.names && r.maxBodySize == c.maxBodySize
    ensures opt.LogMaxBodySize? ==> r.maxBodySize == opt.size && r.whitelist == c.whitelist
  {
    match opt
    case SkipRequestBodyLogging => c.(logRequestBody := false)
    case LogResponseBody => c.(logResponseBody := true)
    case LogMaxBodySize(n) => c.(maxBodySize := n)
    case LogResponseHeaders => c.(logResponseHeaders := true)
    case DisableMetrics => c.(metrics := false)
    case HeadersWhiteList(ws) => c.(whitelist := ws)
  }

  /** The options applied in order over the defaults. */
  function Configure(opts: seq<LoggingOption>): LogConfig
    decreases |opts|
  {
    if opts == [] then DefaultLogConfig
    else ApplyLoggingOption(Configure(opts[..|opts| - 1]), opts[|opts| - 1])
  }

  /** The last whitelist given wins; the body size is untouched by it. */
  lemma {:induction false} LastWhitelistWins(opts: seq<LoggingOption>, names: seq<string>)
    ensures Configure(opts + [HeadersWhiteList(names)]).whitelist == names
    ensures Configure(opts + [HeadersWhiteList(names)]).maxBodySize == Configure(opts).maxBodySize
  {
    var all := opts + [HeadersWhiteList(names)];
    assert all[..|all| - 1] == opts;
  }

  // ---------------------------------------------------------------------
  // Bounded capture
  // ---------------------------------------------------------------------

  /** `portionCapture`: the bytes kept, the number to keep, and the number
      passed in so far. */
  datatype Portion = Portion(buffer: Bytes, length: int, written: int)

  function NewPortion(length: int): Portion {
    Portion([], length, 0)
  }

  /** How many bytes a capture of `length` can hold. */
  function Cap(length: int): nat {
    if length < 0 then 0 else length
  }

  function Min(a: int, b: int): int {
    if a < b then a else b
  }

  datatype PortionWritten = PortionWritten(n: int, err: Error, after: Portion)

  /** `Write`: reports the whole slice as written, with no error, and keeps
      only what still fits. */
  function PortionWrite(pc: Portion, p: Bytes): (r: PortionWritten)
    ensures r.n == |p| && r.err.None?
    ensures r.after.written == pc.written + |p| && r.after.length == pc.length
    ensures |pc.buffer| <= |r.after.buffer| && r.after.buffer[..|pc.buffer|] == pc.buffer
    ensures |pc.buffer| <= Cap(pc.length) ==> |r.after.buffer| <= Cap(pc.length)
  {
    var remaining := pc.length - |pc.buffer|;
    var buffer :=
      if remaining > 0 then
        var toCopy := Min(|p|, remaining);
        pc.buffer + p[..toCopy]
      else pc.buffer;
    PortionWritten(|p|, None, Portion(buffer, pc.length, pc.written + |p|))
  }

  /** `HasMore`. */
  predicate HasMore(pc: Portion) {
    pc.written > pc.length
  }

  /** Several writes, in order. */
  function WriteAll(pc: Portion, ws: seq<Bytes>): Portion
    decreases |ws|
  {
    if ws == [] then pc else WriteAll(PortionWrite(pc, ws[0]).after, ws[1..])
  }

  /** The bytes of several writes, back to back. */
  function Stream(ws: seq<Bytes>): Bytes
    decreases |ws|
  {
    if ws == [] then [] else ws[0] + Stream(ws[1..])
  }

  /** A capture that so far holds the first bytes of `seen` keeps holding the
      first bytes of everything written. */
  lemma {:induction false} WriteAllPrefix(pc: Portion, seen: Bytes, ws: seq<Bytes>)
    requires pc.written == |seen| && pc.buffer == seen[..Min(Cap(pc.length), |seen|)]
    ensures var r := WriteAll(pc, ws);
            var all := seen + Stream(ws);
            r.written == |all| && r.length == pc.length && r.buffer == all[..Min(Cap(pc.length), |all|)]
    decreases |ws|
  {
    if ws != [] {
      var p := ws[0];
      var next := PortionWrite(pc, p).after;
      var seen' := seen + p;
      var cap := Cap(pc.length);
      if |seen| >= cap {
        assert next.buffer == pc.buffer;
        assert seen'[..cap] == seen[..cap];
      } else {
        var toCopy := Min(|p|, cap - |seen|);
        assert next.buffer == seen + p[..toCopy];
        assert seen'[..Min(cap, |seen'|)] == seen + p[..toCopy];
      }
      WriteAllPrefix(next, seen', ws[1..]);
      assert seen' + Stream(ws[1..]) == seen + Stream(ws);
    }
  }

  /** From a fresh capture: `written` is the total passed in, and the buffer
      holds exactly the first `min(length, total)` bytes of all the writes. */
  lemma CapturedPrefix(length: int, ws: seq<Bytes>)
    ensures var r := WriteAll(NewPortion(length), ws);
            var all := Stream(ws);
            r.written == |all| && r.length == length && r.buffer == all[..Min(Cap(length), |all|)]
  {
    WriteAllPrefix(NewPortion(length), [], ws);
    assert [] + Stream(ws) == Stream(ws);
  }

  /** For a non-negative length, `HasMore` says exactly that bytes were lost. */
  lemma HasMoreIffTruncated(length: int, ws: seq<Bytes>)
    requires length >= 0
    ensures var r := WriteAll(NewPortion(length), ws);
            HasMore(r) <==> r.buffer != Stream(ws)
  {
    CapturedPrefix(length, ws);
    var r := WriteAll(NewPortion(length), ws);
    if |Stream(ws)| > length {
      assert |r.buffer| == length;
    } else {
      assert r.buffer == Stream(ws)[..|Stream(ws)|];
    }
  }

  // ---------------------------------------------------------------------
  // Bodies in the log entry
  // ---------------------------------------------------------------------

  const TruncatedMark: string := "... (truncated)"

  /** A logged body: the captured bytes and the text appended after them. */
  datatype LoggedBody = LoggedBody(captured: Bytes, suffix: string)

  function Logged(pc: Portion): (r: LoggedBody)
    ensures r.captured == pc.buffer
    ensures r.suffix == (if HasMore(pc) then TruncatedMark else "")
  {
    if HasMore(pc) then LoggedBody(pc.buffer, TruncatedMark) else LoggedBody(pc.buffer, "")
  }

  /** The request body is captured only when it is to be logged, exists, and
      has a loggable content type. */
  function RequestCapture(c: LogConfig, hasBody: bool, contentType: string): (r: Option<Portion>)
    ensures r.Some? <==> c.logRequestBody && hasBody && HttpExt.IsLoggableContentType(contentType)
    ensures r.Some? ==> r.value == NewPortion(c.maxBodySize)
  {
    if c.logRequestBody && hasBody && HttpExt.IsLoggableContentType(contentType) then Some(NewPortion(c.maxBodySize))
    else None
  }

  /** The request body goes into the entry only for a status of 400 or more
      and only when it was captured; it is marked when bytes were dropped. */
  function RequestBodyEntry(status: int, capture: Option<Portion>): (r: Option<LoggedBody>)
    ensures r.Some? <==> status >= 400 && capture.Some?
    ensures r.Some? ==> r.value.captured == capture.value.buffer
                        && (r.value.suffix == TruncatedMark <==> HasMore(capture.value))
                        && (r.value.suffix == "" <==> !HasMore(capture.value))
  {
    if status >= 400 && capture.Some? then Some(Logged(capture.value)) else None
  }

  /** The response body goes into the entry, whatever the status, when
      response bodies are logged and the writer kept its capture. */
  function ResponseBodyEntry(kept: bool, capture: Option<Portion>): (r: Option<LoggedBody>)
    ensures r.Some? <==> kept && capture.Some?
    ensures r.Some? ==> r.value == Logged(capture.value)
  {
    if kept && capture.Some? then Some(Logged(capture.value)) else None
  }

  /** A failed request whose body fitted is logged in full and unmarked;
      a successful one never carries its body. */
  lemma FailedRequestBodyInFull(c: LogConfig, status: int, contentType: string, ws: seq<Bytes>)
    requires c.logRequestBody && HttpExt.IsLoggableContentType(contentType)
    requires c.maxBodySize >= 0 && |Stream(ws)| <= c.maxBodySize
    ensures var pc := WriteAll(RequestCapture(c, true, contentType).value, ws);
            && (status >= 400 ==> RequestBodyEntry(status, Some(pc)) == Some(LoggedBody(Stream(ws), "")))
            && (status < 400 ==> RequestBodyEntry(status, Some(pc)).None?)
  {
    CapturedPrefix(c.maxBodySize, ws);
    var pc := WriteAll(NewPortion(c.maxBodySize), ws);
    assert Min(Cap(c.maxBodySize), |Stream(ws)|) == |Stream(ws)|;
    assert pc.buffer == Stream(ws);
    assert !HasMore(pc);
  }

  // ---------------------------------------------------------------------
  // Headers
  // ---------------------------------------------------------------------

  /** `http.Header`: each name with its values. */
  type Header = map<string, seq<string>>

  /** Whether a request header is logged: every header when the whitelist is
      empty, else one whose name equals an entry ignoring letter case. */
  predicate Whitelisted(whitelist: seq<string>, name: string) {
    |whitelist| == 0 || AsciiLower(name) in (set w | w in whitelist :: AsciiLower(w))
  }

  /** Authorization and Cookie, in any letter case. */
  predicate Secret(name: string) {
    EqualFoldAscii(name, "Authorization") || EqualFoldAscii(name, "Cookie")
  }

  /** The logged value: a single value as it is, several joined with ", ",
      and a secret replaced. */
  function LogValue(name: string, values: seq<string>): string {
    if Secret(name) then "REDACTED"
    else if |values| == 1 then values[0]
    else Join(values, ", ")
  }

  /** The `headers` map of the log entry. */
  function LoggedHeaders(whitelist: seq<string>, h: Header): (r: map<string, string>)
    ensures forall k :: k in r <==> k in h && (whitelist == [] || exists w :: w in whitelist && EqualFoldAscii(w, k))
    ensures forall k :: k in r && Secret(k) ==> r[k] == "REDACTED"
    ensures forall k :: k in r && !Secret(k) ==> r[k] == Join(h[k], ", ")
  {
    var r := map k | k in h && Whitelisted(whitelist, k) :: LogValue(k, h[k]);
    forall k | k in h
      ensures Whitelisted(whitelist, k) <==> (whitelist == [] || exists w :: w in whitelist && EqualFoldAscii(w, k))
    {
      if whitelist != [] && Whitelisted(whitelist, k) {
        var w :| w in whitelist && AsciiLower(w) == AsciiLower(k);
        assert EqualFoldAscii(w, k);
      }
    }
    r
  }

  /** The handler's loop over the request headers, in whatever order the
      map is walked: every order builds the same entry. */
  method CollectHeaders(whitelist: seq<string>, h: Header, order: seq<string>) returns (headers: map<string, string>)
    requires forall k :: k in h <==> k in order
    requires forall a, b :: 0 <= a < b < |order| ==> order[a] != order[b]
    ensures headers == LoggedHeaders(whitelist, h)
  {
    headers := map[];
    var i := 0;
    while i < |order|
      invariant 0 <= i <= |order|
      invariant forall k :: k in headers <==> k in order[..i] && Whitelisted(whitelist, k)
      invariant forall k :: k in headers ==> headers[k] == LogValue(k, h[k])
    {
      var k := order[i];
      var v := h[k];
      if Whitelisted(whitelist, k) {
        if |v| == 1 {
          headers := headers[k := v[0]];
        } else {
          headers := headers[k := Join(v, ", ")];
        }
        if EqualFoldAscii(k, "Authorization") {
          headers := headers[k := "REDACTED"];
        } else if EqualFoldAscii(k, "Cookie") {
          headers := headers[k := "REDACTED"];
        }
      }
      assert order[..i + 1] == order[..i] + [k];
      i := i + 1;
    }
    assert order[..i] == order;
    var expected := LoggedHeaders(whitelist, h);
    assert forall k :: k in headers <==> k in expected;
  }

  /** An empty whitelist logs every header, still redacting the secrets. */
  lemma EmptyWhitelistLogsAll(h: Header)
    ensures LoggedHeaders([], h).Keys == h.Keys
  {
  }

  /** A secret never reaches the log, in whatever case it is spelt. */
  lemma SecretsRedacted(whitelist: seq<string>, h: Header, name: string)
    requires name in h && EqualFoldAscii(name, "authorization")
    requires Whitelisted(whitelist, name)
    ensures LoggedHeaders(whitelist, h)[name] == "REDACTED"
  {
    assert AsciiLower("authorization") == AsciiLower("Authorization");
  }

  // ---------------------------------------------------------------------
  // Level
  // ---------------------------------------------------------------------

  datatype Level = Info | Warn | ErrorLevel {
    function Rank(): nat {
      match this
      case Info => 0
      case Warn => 1
      case ErrorLevel => 2
    }
  }

  /** The level of the entry for the status the writer recorded. */
  function LevelFor(status: int): (l: Level)
    ensures l == Info <==> 0 <= status < 400
    ensures l == Warn <==> 400 <= status < 500
  {
    if 0 <= status < 400 then Info
    else if 400 <= status < 500 then Warn
    else ErrorLevel
  }

  /** Among non-negative statuses a larger status never logs lower. */
  lemma LevelMonotone(a: int, b: int)
    requires 0 <= a <= b
    ensures LevelFor(a).Rank() <= LevelFor(b).Rank()
  {
  }

  /** A handler that writes nothing leaves the status at 0, which logs at
      Info. */
  lemma SilentHandlerInfo(capturing: bool, err: string)
    ensures LevelFor(HttpExt.Run(HttpExt.NewCapture(capturing), [HttpExt.HandlerErrorEvent(err)]).status) == Info
  {
    assert [HttpExt.HandlerErrorEvent(err)][1..] == [];
  }
}
