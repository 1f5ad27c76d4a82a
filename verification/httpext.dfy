// The HTTP extension package: the loggable-content-type test, the response
// writer that records the status and tees the body into a capture, the
// status-code slot of a request context, and the server options.

module HttpExt {
  import opened Wrappers
  import opened Text

  type Bytes = seq<bv8>

  // ---------------------------------------------------------------------
  // Loggable content types
  // ---------------------------------------------------------------------

  const LoggablePrefixes: seq<string> := ["application/json", "application/x-www-form-urlencoded"]

  /** Whether some prefix in `prefixes` starts `s`, tried in order. */
  function AnyPrefix(s: string, prefixes: seq<string>): (r: bool)
    ensures r <==> exists i :: 0 <= i < |prefixes| && HasPrefix(s, prefixes[i])
    decreases |prefixes|
  {
    if prefixes == [] then false
    else if HasPrefix(s, prefixes[0]) then true
    else
      var r := AnyPrefix(s, prefixes[1..]);
      assert forall i :: 1 <= i < |prefixes| ==> prefixes[i] == prefixes[1..][i - 1];
      r
  }

  /** A rune lower-cased as far as a test against ASCII text can tell:
      `unicode.ToLower` turns the ASCII capitals into ASCII letters, and
      U+0130 (capital I with dot above) and U+212A (Kelvin sign) into `i`
      and `k`. It turns every other rune outside ASCII into a rune outside
      ASCII, so keeping such a rune decides every ASCII test the same. */
  function PrefixLowerRune(c: char): (r: char)
    ensures r < '\U{0080}' <==> c < '\U{0080}' || c == '\U{0130}' || c == '\U{212A}'
    ensures c < '\U{0080}' ==> r == AsciiLowerRune(c)
    ensures c == '\U{0130}' ==> r == 'i'
    ensures c == '\U{212A}' ==> r == 'k'
  {
    if c == '\U{0130}' then 'i' else if c == '\U{212A}' then 'k' else AsciiLowerRune(c)
  }

  /** `strings.ToLower` as seen by an ASCII prefix test. */
  function PrefixLower(s: string): (r: string)
    ensures |r| == |s|
    ensures forall i :: 0 <= i < |s| ==> r[i] == PrefixLowerRune(s[i])
  {
    seq(|s|, i requires 0 <= i < |s| => PrefixLowerRune(s[i]))
  }

  /** Any rune lowering that agrees with `PrefixLowerRune` wherever either
      result is ASCII, as `unicode.ToLower` does, decides every test for an
      ASCII prefix exactly as `PrefixLower` does. */
  lemma {:induction false} PrefixLowerDecides(lower: char -> char, s: string, prefix: string)
    requires forall c :: lower(c) == PrefixLowerRune(c) || (lower(c) >= '\U{0080}' && PrefixLowerRune(c) >= '\U{0080}')
    requires forall i :: 0 <= i < |prefix| ==> prefix[i] < '\U{0080}'
    ensures HasPrefix(seq(|s|, i requires 0 <= i < |s| => lower(s[i])), prefix) <==> HasPrefix(PrefixLower(s), prefix)
  {
    var t := seq(|s|, i requires 0 <= i < |s| => lower(s[i]));
    var u := PrefixLower(s);
    if |prefix| <= |s| {
      assert forall i :: 0 <= i < |prefix| ==> (t[i] == prefix[i] <==> u[i] == prefix[i]) by {
        forall i | 0 <= i < |prefix|
          ensures t[i] == prefix[i] <==> u[i] == prefix[i]
        {
          assert t[i] == lower(s[i]) && u[i] == PrefixLowerRune(s[i]);
        }
      }
      if t[..|prefix|] == prefix {
        assert forall i :: 0 <= i < |prefix| ==> u[..|prefix|][i] == prefix[i] by {
          forall i | 0 <= i < |prefix|
            ensures u[..|prefix|][i] == prefix[i]
          {
            assert t[..|prefix|][i] == t[i];
          }
        }
      }
      if u[..|prefix|] == prefix {
        assert forall i :: 0 <= i < |prefix| ==> t[..|prefix|][i] == prefix[i] by {
          forall i | 0 <= i < |prefix|
            ensures t[..|prefix|][i] == prefix[i]
          {
            assert u[..|prefix|][i] == u[i];
          }
        }
      }
    }
  }

  /** Text of ASCII runes other than capitals is its own lower-case form. */
  lemma PrefixLowerKeeps(s: string)
    requires forall i :: 0 <= i < |s| ==> s[i] < '\U{0080}' && !('A' <= s[i] <= 'Z')
    ensures PrefixLower(s) == s
  {
  }

  /** `IsLoggableContentType`: the lower-cased value starts with one of the
      two prefixes. */
  function IsLoggableContentType(contentType: string): (r: bool)
    ensures r <==> HasPrefix(PrefixLower(contentType), "application/json")
                   || HasPrefix(PrefixLower(contentType), "application/x-www-form-urlencoded")
  {
    AnyPrefix(PrefixLower(contentType), LoggablePrefixes)
  }

  /** With any such lowering in place of `strings.ToLower`, the verdict is
      the source's: the lowered value starts with one of the two prefixes. */
  lemma LoggableUnderLowering(lower: char -> char, ct: string)
    requires forall c :: lower(c) == PrefixLowerRune(c) || (lower(c) >= '\U{0080}' && PrefixLowerRune(c) >= '\U{0080}')
    ensures var t := seq(|ct|, i requires 0 <= i < |ct| => lower(ct[i]));
            IsLoggableContentType(ct) <==> HasPrefix(t, LoggablePrefixes[0]) || HasPrefix(t, LoggablePrefixes[1])
  {
    var json, form := LoggablePrefixes[0], LoggablePrefixes[1];
    assert forall i :: 0 <= i < |json| ==> json[i] < '\U{0080}';
    assert forall i :: 0 <= i < |form| ==> form[i] < '\U{0080}';
    PrefixLowerDecides(lower, ct, json);
    PrefixLowerDecides(lower, ct, form);
  }

  /** The JSON media type itself is loggable. */
  lemma JsonLoggable(ct: string)
    requires ct == "application/json"
    ensures IsLoggableContentType(ct)
  {
    PrefixLowerKeeps(ct);
    assert PrefixLower(ct)[..|ct|] == ct;
  }

  /** Capital I with dot above lowers to `i`, so `APPL\U{0130}CATION/JSON`
      is loggable as well. */
  lemma DottedCapitalLoggable(ct: string)
    requires ct == "APPL\U{0130}CATION/JSON"
    ensures IsLoggableContentType(ct)
  {
    var json := "application/json";
    assert |PrefixLower(ct)| == |json|;
    assert forall i :: 0 <= i < |json| ==> PrefixLower(ct)[i] == json[i];
    assert PrefixLower(ct) == json;
    JsonLoggable(json);
  }

  /** Any parameters after a loggable media type, in any letter case of the
      type itself, keep it loggable. */
  lemma LoggableWithParameters(mediaType: string, rest: string)
    requires PrefixLower(mediaType) in LoggablePrefixes
    ensures IsLoggableContentType(mediaType + rest)
  {
    var lower := PrefixLower(mediaType + rest);
    assert lower[..|mediaType|] == PrefixLower(mediaType);
  }

  /** A text type is not loggable: its lower-cased form starts with `t`. */
  lemma TextNotLoggable(contentType: string)
    requires contentType != [] && (contentType[0] == 't' || contentType[0] == 'T')
    ensures !IsLoggableContentType(contentType)
  {
    assert PrefixLower(contentType)[0] == 't';
    assert "application/json"[0] == 'a';
    assert "application/x-www-form-urlencoded"[0] == 'a';
  }

  // ---------------------------------------------------------------------
  // Response capture
  // ---------------------------------------------------------------------

  /** Where body writes go once decided: nowhere decided yet (straight to the
      underlying writer), the underlying writer only, or both the underlying
      writer and the capture. */
  datatype Sink = Unset | Direct | Tee

  /** `ResponseCapture` together with what the underlying writer has seen:
      `contentType` is its Content-Type header, `sent` the status codes
      forwarded to it, `body` the bytes it received, and `captured` the bytes
      the body capture received. `capturing` is whether `BodyCapture` is set. */
  datatype Capture = Capture(
    status: int,
    handlerError: Error,
    sink: Sink,
    capturing: bool,
    checked: bool,
    wroteHeader: bool,
    contentType: string,
    sent: seq<int>,
    body: Bytes,
    captured: Bytes)

  /** A fresh writer, with or without a body capture. */
  function NewCapture(capturing: bool): Capture {
    Capture(0, None, Unset, capturing, false, false, "", [], [], [])
  }

  /** `SetHandlerError`. */
  function SetHandlerError(c: Capture, err: string): (r: Capture)
    ensures r.handlerError == Some(err)
    ensures r.(handlerError := c.handlerError) == c
  {
    c.(handlerError := Some(err))
  }

  /** `WriteHeader`: only the first call records and forwards its code; the
      first call with a capture set decides, from the Content-Type header,
      whether the capture is kept. */
  function WriteHeader(c: Capture, code: int): (r: Capture)
    ensures r.wroteHeader
    ensures r.status == (if c.wroteHeader then c.status else code)
    ensures r.sent == (if c.wroteHeader then c.sent else c.sent + [code])
    ensures r.body == c.body && r.captured == c.captured && r.handlerError == c.handlerError
    ensures r.contentType == c.contentType
    ensures c.checked || !c.capturing ==>
              r.sink == c.sink && r.capturing == c.capturing && r.checked == c.checked
    ensures !c.checked && c.capturing ==>
              r.checked && (r.capturing <==> IsLoggableContentType(c.contentType))
              && r.sink == (if r.capturing then Tee else Direct)
  {
    var c1 := if !c.wroteHeader then c.(status := code) else c;
    var c2 :=
      if !c1.checked && c1.capturing then
        if IsLoggableContentType(c1.contentType) then c1.(checked := true, sink := Tee)
        else c1.(checked := true, sink := Direct, capturing := false)
      else c1;
    var c3 := if !c.wroteHeader then c2.(sent := c2.sent + [code]) else c2;
    c3.(wroteHeader := true)
  }

  datatype WriteResult = WriteResult(n: int, after: Capture)

  /** `Write`: a write before any status writes 200 first; the bytes go to
      the underlying writer, and to the capture when it is kept. The
      underlying writer is taken to accept every byte, so the write is full
      and reports no error. */
  function Write(c: Capture, b: Bytes): (r: WriteResult)
    ensures r.n == |b|
    ensures r.after.body == c.body + b
    ensures r.after.wroteHeader
    ensures c.status == 0 && !c.wroteHeader ==> r.after.status == 200 && r.after.sent == c.sent + [200]
    ensures c.wroteHeader ==> r.after.status == c.status && r.after.sent == c.sent
  {
    var c1 := if c.status == 0 then WriteHeader(c, 200) else c;
    var captured := if c1.sink == Tee then c1.captured + b else c1.captured;
    var c2 := c1.(body := c1.body + b, captured := captured, wroteHeader := c1.wroteHeader || c.status != 0);
    WriteResult(|b|, c2)
  }

  /** What a handler may do to the writer. */
  datatype Event =
    | SetContentType(value: string)
    | WriteHeaderEvent(code: int)
    | WriteEvent(data: Bytes)
    | HandlerErrorEvent(err: string)

  function Apply(c: Capture, e: Event): Capture {
    match e
    case SetContentType(v) => c.(contentType := v)
    case WriteHeaderEvent(code) => WriteHeader(c, code)
    case WriteEvent(b) => Write(c, b).after
    case HandlerErrorEvent(err) => SetHandlerError(c, err)
  }

  function Run(c: Capture, events: seq<Event>): Capture
    decreases |events|
  {
    if events == [] then c else Run(Apply(c, events[0]), events[1..])
  }

  /** What every reachable writer satisfies: at most one status forwarded and
      it is the recorded one; no body before a status; the capture, while
      kept, has seen exactly the body, and otherwise nothing. */
  predicate Inv(c: Capture) {
    && |c.sent| <= 1
    && (c.wroteHeader <==> |c.sent| == 1)
    && (c.wroteHeader ==> c.status == c.sent[0])
    && (c.status != 0 ==> c.wroteHeader)
    && (c.body != [] ==> c.wroteHeader)
    && (c.sink == Unset <==> !c.checked)
    && (c.sink == Tee <==> c.capturing && c.checked)
    && (c.capturing ==> (c.checked <==> c.wroteHeader))
    && (c.sink == Tee ==> c.captured == c.body)
    && (c.sink != Tee ==> c.captured == [])
  }

  lemma NewCaptureInv(capturing: bool)
    ensures Inv(NewCapture(capturing))
  {
  }

  lemma ApplyInv(c: Capture, e: Event)
    requires Inv(c)
    ensures Inv(Apply(c, e))
  {
    match e
    case WriteEvent(b) =>
      var c1 := if c.status == 0 then WriteHeader(c, 200) else c;
      assert Inv(c1);
    case _ =>
  }

  /** Every event preserves the invariant. */
  lemma {:induction false} RunInv(c: Capture, events: seq<Event>)
    requires Inv(c)
    ensures Inv(Run(c, events))
    decreases |events|
  {
    if events != [] {
      ApplyInv(c, events[0]);
      RunInv(Apply(c, events[0]), events[1..]);
    }
  }

  /** Decisions are never revisited: once a status is written it and the
      forwarded codes stay; once the content type is checked the capture
      decision stays; a writer without a capture never gains one. */
  lemma {:induction false} RunStable(c: Capture, events: seq<Event>)
    ensures var r := Run(c, events);
            && (c.wroteHeader ==> r.wroteHeader && r.status == c.status && r.sent == c.sent)
            && (c.checked ==> r.checked && r.capturing == c.capturing)
            && (!c.capturing ==> !r.capturing)
            && (!c.capturing && !c.checked ==> !r.checked)
    decreases |events|
  {
    if events != [] {
      RunStable(Apply(c, events[0]), events[1..]);
    }
  }

  /** The first `WriteHeader` wins, whatever the handler does afterwards. */
  lemma FirstHeaderWins(capturing: bool, code: int, events: seq<Event>)
    ensures var r := Run(NewCapture(capturing), [WriteHeaderEvent(code)] + events);
            r.status == code && r.sent == [code]
  {
    var c := WriteHeader(NewCapture(capturing), code);
    assert ([WriteHeaderEvent(code)] + events)[1..] == events;
    RunStable(c, events);
  }

  /** A body written before any status is sent with 200. */
  lemma WriteDefaultsTo200(capturing: bool, b: Bytes, events: seq<Event>)
    ensures var r := Run(NewCapture(capturing), [WriteEvent(b)] + events);
            r.status == 200 && r.sent == [200]
  {
    var c := Write(NewCapture(capturing), b).after;
    assert ([WriteEvent(b)] + events)[1..] == events;
    RunStable(c, events);
  }

  /** With a capture and a loggable Content-Type when the status is written,
      the capture ends holding the whole body; with another type it is
      dropped and receives nothing. */
  lemma CaptureFollowsContentType(ct: string, code: int, events: seq<Event>)
    ensures var r := Run(NewCapture(true), [SetContentType(ct), WriteHeaderEvent(code)] + events);
            && (IsLoggableContentType(ct) ==> r.capturing && r.captured == r.body)
            && (!IsLoggableContentType(ct) ==> !r.capturing && r.captured == [])
  {
    var c := WriteHeader(NewCapture(true).(contentType := ct), code);
    assert Inv(c);
    var all := [SetContentType(ct), WriteHeaderEvent(code)] + events;
    assert all[1..][1..] == events;
    assert Run(NewCapture(true), all) == Run(c, events);
    RunInv(c, events);
    RunStable(c, events);
  }

  /** Without a capture, the content type is never consulted. */
  lemma NoCaptureNoDecision(events: seq<Event>)
    ensures var r := Run(NewCapture(false), events);
            !r.checked && r.sink == Unset && r.captured == []
  {
    NewCaptureInv(false);
    RunInv(NewCapture(false), events);
    RunStable(NewCapture(false), events);
  }

  // ---------------------------------------------------------------------
  // Status code in the request context
  // ---------------------------------------------------------------------

  /** Context keys: the package's private status key, or anyone else's. */
  datatype Key = StatusCodeKey | NamedKey(name: string)

  datatype Value = IntValue(i: int) | TextValue(s: string)

  type Context = map<Key, Value>

  /** `SetStatusCode`: the request now carries the code; other values stay. */
  function SetStatusCode(ctx: Context, code: int): (r: Context)
    ensures StatusCodeKey in r && r[StatusCodeKey] == IntValue(code)
    ensures forall k :: k != StatusCodeKey ==> (k in r <==> k in ctx)
    ensures forall k :: k != StatusCodeKey && k in ctx ==> r[k] == ctx[k]
  {
    ctx[StatusCodeKey := IntValue(code)]
  }

  /** `GetStatusCode`: the stored integer code, or 200. */
  function GetStatusCode(ctx: Context): (code: int)
    ensures StatusCodeKey !in ctx ==> code == 200
  {
    if StatusCodeKey in ctx && ctx[StatusCodeKey].IntValue? then ctx[StatusCodeKey].i else 200
  }

  /** Reading back gives the code last set, and the last of several sets wins. */
  lemma GetAfterSet(ctx: Context, first: int, code: int)
    ensures GetStatusCode(SetStatusCode(ctx, code)) == code
    ensures GetStatusCode(SetStatusCode(SetStatusCode(ctx, first), code)) == code
    ensures SetStatusCode(SetStatusCode(ctx, first), code) == SetStatusCode(ctx, code)
  {
  }

  // ---------------------------------------------------------------------
  // Server options
  // ---------------------------------------------------------------------

  /** The configurable fields of `HTTPServer`; `listener` says whether a
      socket-activation listener was taken, `autoTLS` whether the
      certificate manager's TLS configuration was installed. */
  datatype Server = Server(
    addr: string, domains: seq<string>, port: int, certFile: string, certCache: string,
    keyFile: string, listener: bool, autoTLS: bool)

  const ZeroServer: Server := Server("", [], 0, "", "", "", false, false)

  datatype ServerOption =
    | WithDomains(domains: seq<string>)
    | WithCertFiles(certFile: string, keyFile: string)
    | WithAddr(addr: string)
    | WithSystemdSocket

  /** What the options ask of the system: `os.Stat`'s error for a path,
      `net.SplitHostPort`, and how many listeners socket activation passed
      (or its error). */
  datatype System = System(
    stat: string -> Error,
    splitHostPort: string -> Result<(string, string), string>,
    listeners: Result<nat, string>)

  datatype Port = Port(port: int, err: Error)

  /** The text of a `strconv.Atoi` error. */
  function AtoiErrorText(s: string, e: NumError): string {
    "strconv.Atoi: parsing \"" + s + "\": " + (if e == SyntaxError then "invalid syntax" else "value out of range")
  }

  /** `extractPortFromAddr`: the port part parsed as a decimal integer. */
  function ExtractPort(sys: System, addr: string): (r: Port)
    ensures sys.splitHostPort(addr).Err? ==> r == Port(0, Some(sys.splitHostPort(addr).error))
    ensures sys.splitHostPort(addr).Ok? ==>
              var p := sys.splitHostPort(addr).value.1;
              r.port == Atoi(p).value && (r.err.None? <==> Atoi(p).err.None?)
  {
    match sys.splitHostPort(addr)
    case Err(e) => Port(0, Some(e))
    case Ok((_, portText)) =>
      var parsed := Atoi(portText);
      match parsed.err
      case None => Port(parsed.value, None)
      case Some(e) => Port(parsed.value, Some(AtoiErrorText(portText, e)))
  }

  datatype Applied = Applied(server: Server, err: Error)

  /** One option applied to the server being built. */
  function ApplyOption(sys: System, s: Server, opt: ServerOption): (r: Applied)
    ensures opt.WithDomains? ==> r == Applied(s.(domains := opt.domains), None)
    ensures opt.WithAddr? ==> r.server.addr == opt.addr && r.server.port == ExtractPort(sys, opt.addr).port
                              && r.err == ExtractPort(sys, opt.addr).err
    ensures opt.WithCertFiles? ==>
              && r.server == s.(certFile := opt.certFile, keyFile := opt.keyFile)
              && (r.err.None? <==> sys.stat(opt.certFile).None? && sys.stat(opt.keyFile).None?)
    ensures opt.WithSystemdSocket? ==> r.err.None?
  {
    match opt
    case WithDomains(ds) => Applied(s.(domains := ds), None)
    case WithCertFiles(cert, key) =>
      var s1 := s.(certFile := cert, keyFile := key);
      if sys.stat(cert).Some? then Applied(s1, sys.stat(cert))
      else if sys.stat(key).Some? then Applied(s1, sys.stat(key))
      else Applied(s1, None)
    case WithAddr(addr) =>
      var p := ExtractPort(sys, addr);
      Applied(s.(addr := addr, port := p.port), p.err)
    case WithSystemdSocket =>
      match sys.listeners
      case Ok(n) => if n == 0 then Applied(s, None) else Applied(s.(listener := true), None)
      case Err(_) => Applied(s, None)
  }

  /** The options in order; the first failing one aborts with its error. */
  function ApplyOptions(sys: System, s: Server, opts: seq<ServerOption>): Result<Server, string>
    decreases |opts|
  {
    if opts == [] then Ok(s)
    else
      var a := ApplyOption(sys, s, opts[0]);
      if a.err.Some? then Err(a.err.value) else ApplyOptions(sys, a.server, opts[1..])
  }

  /** Options that all succeed, then one that fails: `New` reports the
      failing option's error and the later options do not matter. */
  lemma {:induction false} FirstFailingOptionAborts(sys: System, s: Server, ok: seq<ServerOption>,
                                                    bad: ServerOption, rest: seq<ServerOption>)
    requires ApplyOptions(sys, s, ok).Ok?
    requires ApplyOption(sys, ApplyOptions(sys, s, ok).value, bad).err.Some?
    ensures ApplyOptions(sys, s, ok + [bad] + rest)
            == Err(ApplyOption(sys, ApplyOptions(sys, s, ok).value, bad).err.value)
    decreases |ok|
  {
    if ok == [] {
      assert ok + [bad] + rest == [bad] + rest;
    } else {
      var a := ApplyOption(sys, s, ok[0]);
      assert (ok + [bad] + rest)[0] == ok[0];
      assert (ok + [bad] + rest)[1..] == ok[1..] + [bad] + rest;
      FirstFailingOptionAborts(sys, a.server, ok[1..], bad, rest);
    }
  }

  const DefaultAddr := ":80"
  const DefaultCertCache := "/.cache/certcache"
  const DefaultHost := "localhost"

  /** `isHTTPSPort`. */
  predicate IsHTTPSPort(port: int) {
    port == 443 || port == 8443 || port == 9443
  }

  /** `setupDefaults`: each empty field gets its default; set fields stay. */
  function SetupDefaults(s: Server): (r: Server)
    ensures r.addr == (if s.addr == "" then DefaultAddr else s.addr)
    ensures r.domains == (if s.domains == [] then [DefaultHost] else s.domains)
    ensures r.certCache == (if s.certCache == "" then DefaultCertCache else s.certCache)
    ensures r.port == s.port && r.certFile == s.certFile && r.keyFile == s.keyFile
    ensures r.listener == s.listener && r.autoTLS == s.autoTLS
  {
    var s1 := if s.addr == "" then s.(addr := DefaultAddr) else s;
    var s2 := if |s1.domains| == 0 then s1.(domains := s1.domains + [DefaultHost]) else s1;
    if s2.certCache == "" then s2.(certCache := DefaultCertCache) else s2
  }

  /** Defaults leave no field empty, so filling them again changes nothing. */
  lemma SetupDefaultsIdempotent(s: Server)
    ensures var r := SetupDefaults(s);
            r.addr != "" && r.domains != [] && r.certCache != "" && SetupDefaults(r) == r
  {
  }

  /** `New`: the options, then the defaults, then the certificate manager for
      an HTTPS port that lacks a certificate or a key file. */
  function NewServer(sys: System, opts: seq<ServerOption>): (r: Result<Server, string>)
    ensures ApplyOptions(sys, ZeroServer, opts).Err? ==> r == Err(ApplyOptions(sys, ZeroServer, opts).error)
    ensures r.Ok? ==> r.value.addr != "" && r.value.domains != [] && r.value.certCache != ""
    ensures r.Ok? ==> (r.value.autoTLS <==> IsHTTPSPort(r.value.port) && (r.value.certFile == "" || r.value.keyFile == ""))
  {
    match ApplyOptions(sys, ZeroServer, opts)
    case Err(e) => Err(e)
    case Ok(s) =>
      var d := SetupDefaults(s);
      Ok(d.(autoTLS := IsHTTPSPort(d.port) && (d.certFile == "" || d.keyFile == "")))
  }

  /** An address with a numeric port sets both address and port; the port
      decides whether the certificate manager is installed. */
  lemma AddrSetsPort(sys: System, addr: string, host: string, portText: string)
    requires addr != "" && sys.splitHostPort(addr) == Ok((host, portText))
    requires Atoi(portText).err.None?
    ensures var r := NewServer(sys, [WithAddr(addr)]);
            && r.Ok? && r.value.addr == addr && r.value.port == Atoi(portText).value
            && (r.value.autoTLS <==> IsHTTPSPort(Atoi(portText).value))
  {
    var opts := [WithAddr(addr)];
    var a := ApplyOption(sys, ZeroServer, WithAddr(addr));
    assert a == Applied(ZeroServer.(addr := addr, port := Atoi(portText).value), None);
    assert opts[1..] == [];
    assert ApplyOptions(sys, ZeroServer, opts) == ApplyOptions(sys, a.server, []);
  }

  /** An address whose port is not a number makes `New` fail. */
  lemma BadPortFails(sys: System, addr: string, host: string, portText: string)
    requires sys.splitHostPort(addr) == Ok((host, portText))
    requires Atoi(portText).err.Some?
    ensures NewServer(sys, [WithAddr(addr)]).Err?
  {
  }

  /** No options at all: port 0 is not an HTTPS port, so no certificate
      manager, and every default is filled in. */
  lemma NoOptionsDefaults(sys: System)
    ensures NewServer(sys, []) == Ok(Server(DefaultAddr, [DefaultHost], 0, "", DefaultCertCache, "", false, false))
  {
    assert ApplyOptions(sys, ZeroServer, []) == Ok(ZeroServer);
    assert ZeroServer.domains + [DefaultHost] == [DefaultHost];
  }
}
