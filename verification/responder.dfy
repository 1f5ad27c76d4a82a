// The JSON responder and the handler adapter: a handler returns data or an
// API error (or panics), and the adapter turns that into a Content-Type, a
// status and an encoded body on the response writer.

module Responder {
  import opened Wrappers
  import opened HttpExt
  import opened ApiErrors

  /** `json.Encoder.Encode` of a value: the bytes written, or the encoding
      error (nothing is written then). */
  type Encoder<!T> = T -> Result<Bytes, string>

  /** How the error body and the data are encoded. */
  datatype Encoders<!D> = Encoders(err: Encoder<APIError>, data: Encoder<D>)

  /** The body write, if encoding succeeds. */
  function BodyWrite<T>(enc: Encoder<T>, v: T): (events: seq<Event>)
    ensures enc(v).Ok? ==> events == [WriteEvent(enc(v).value)]
    ensures enc(v).Err? ==> events == []
  {
    match enc(v)
    case Ok(b) => [WriteEvent(b)]
    case Err(_) => []
  }

  /** `JSON`: the writer calls it makes. `recordsErrors` is whether the
      writer accepts `SetHandlerError`. */
  function JSON<D>(ctx: Context, data: Option<D>, apiErr: Option<APIError>, enc: Encoders<D>,
                   recordsErrors: bool): (events: seq<Event>)
    ensures |events| >= 2 && events[0] == SetContentType("application/json")
    ensures apiErr.Some? ==> events[1] == WriteHeaderEvent(apiErr.value.status)
    ensures apiErr.None? ==> events[1] == WriteHeaderEvent(GetStatusCode(ctx))
    ensures (exists i :: 0 <= i < |events| && events[i].HandlerErrorEvent?)
            <==> apiErr.Some? && apiErr.value.internal.Some? && recordsErrors
    ensures apiErr.None? && data.None? ==> |events| == 2
    ensures forall i :: 2 <= i < |events| ==> !events[i].SetContentType? && !events[i].WriteHeaderEvent?
  {
    var head := [SetContentType("application/json")];
    match apiErr
    case Some(e) =>
      var record := if e.internal.Some? && recordsErrors then [HandlerErrorEvent(e.internal.value)] else [];
      var events := head + [WriteHeaderEvent(e.status)] + record + BodyWrite(enc.err, e);
      assert record != [] ==> events[2] == record[0];
      events
    case None =>
      var body := if data.Some? then BodyWrite(enc.data, data.value) else [];
      head + [WriteHeaderEvent(GetStatusCode(ctx))] + body
  }

  /** What a handler did: returned data and an error, or panicked. */
  datatype Outcome<D> = Returned(data: Option<D>, err: Option<APIError>) | Panicked(cause: string)

  /** The API error sent for a panic. */
  function PanicError(cause: string): APIError {
    Internal("internal server error", Some("panic: " + cause))
  }

  /** `Handler`: the handler's context (after any `SetStatusCode`) and
      outcome, turned into writer calls. An error wins over data. */
  function Handle<D>(ctx: Context, outcome: Outcome<D>, enc: Encoders<D>, recordsErrors: bool): (events: seq<Event>)
    ensures outcome.Panicked? ==> events == JSON(ctx, None, Some(PanicError(outcome.cause)), enc, recordsErrors)
    ensures outcome.Returned? && outcome.err.Some? ==> events == JSON(ctx, None, outcome.err, enc, recordsErrors)
    ensures outcome.Returned? && outcome.err.None? ==> events == JSON(ctx, outcome.data, None, enc, recordsErrors)
  {
    match outcome
    case Panicked(cause) => JSON(ctx, None, Some(PanicError(cause)), enc, recordsErrors)
    case Returned(data, err) =>
      if err.Some? then JSON(ctx, None, err, enc, recordsErrors) else JSON(ctx, data, None, enc, recordsErrors)
  }

  /** Served through the response capture: the status is the error's or the
      context's, the Content-Type is JSON, a capture is kept and sees the
      whole body, and the cause of an internal error is recorded. */
  lemma Served<D>(ctx: Context, outcome: Outcome<D>, enc: Encoders<D>)
    ensures var events := Handle(ctx, outcome, enc, true);
            var w := Run(NewCapture(true), events);
            && w.contentType == "application/json"
            && w.sent == [w.status]
            && (outcome.Panicked? ==> w.status == 500)
            && (outcome.Returned? && outcome.err.Some? ==> w.status == outcome.err.value.status)
            && (outcome.Returned? && outcome.err.None? ==> w.status == GetStatusCode(ctx))
            && w.capturing && w.captured == w.body
  {
    var events := Handle(ctx, outcome, enc, true);
    var code := if outcome.Panicked? then 500 else if outcome.err.Some? then outcome.err.value.status else GetStatusCode(ctx);
    var rest := events[2..];
    assert events == [SetContentType("application/json"), WriteHeaderEvent(code)] + rest;
    JsonAfterHeader(code, rest);
  }

  /** Once the JSON Content-Type and the status are set, a capture is kept
      and the rest of the writer calls change neither. */
  lemma JsonAfterHeader(code: int, rest: seq<Event>)
    requires forall i :: 0 <= i < |rest| ==> !rest[i].SetContentType?
    ensures var w := Run(NewCapture(true), [SetContentType("application/json"), WriteHeaderEvent(code)] + rest);
            && w.contentType == "application/json"
            && w.status == code && w.sent == [code]
            && w.capturing && w.captured == w.body
  {
    var ct := "application/json";
    var events := [SetContentType(ct), WriteHeaderEvent(code)] + rest;
    var c := WriteHeader(NewCapture(true).(contentType := ct), code);
    JsonLoggable(ct);
    CaptureFollowsContentType(ct, code, rest);
    assert events[1..][1..] == rest;
    assert Run(NewCapture(true), events) == Run(c, rest);
    RunStable(c, rest);
    NoContentTypeChange(c, rest);
  }

  /** The adapter never sets another Content-Type after the first event. */
  lemma {:induction false} NoContentTypeChange(c: Capture, events: seq<Event>)
    requires forall i :: 0 <= i < |events| ==> !events[i].SetContentType?
    ensures Run(c, events).contentType == c.contentType
    decreases |events|
  {
    if events != [] {
      NoContentTypeChange(Apply(c, events[0]), events[1..]);
    }
  }

  /** A panic is answered with 500 and the code `internal_error`, and the
      panic value is recorded as the handler error. */
  lemma PanicAnswered<D>(ctx: Context, cause: string, enc: Encoders<D>)
    ensures var events := Handle(ctx, Panicked(cause), enc, true);
            && events[1] == WriteHeaderEvent(500)
            && events[2] == HandlerErrorEvent("panic: " + cause)
            && PanicError(cause).code == "internal_error"
  {
  }

  /** No data and no error: only the header and the status, no body. */
  lemma NilDataNoBody<D>(ctx: Context, enc: Encoders<D>, recordsErrors: bool)
    ensures Handle(ctx, Returned(None, None), enc, recordsErrors)
            == [SetContentType("application/json"), WriteHeaderEvent(GetStatusCode(ctx))]
  {
  }
}
