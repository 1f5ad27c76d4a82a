// API errors: the error a handler returns, with its HTTP status and its
// machine-readable code, and the list of per-field validation errors.

module ApiErrors {
  import opened Wrappers
  import opened Text

  // ---------------------------------------------------------------------
  // Validation errors
  // ---------------------------------------------------------------------

  datatype ValidationError = ValidationError(field: string, message: string)

  /** A `ValidationErrors` slice: `None` is the nil slice. */
  type Slice = Option<seq<ValidationError>>

  /** The entries of a slice; a nil slice has none. */
  function Items(ve: Slice): seq<ValidationError> {
    ve.GetOr([])
  }

  /** `AddError`: a nil slice is made first, then one entry is appended. */
  function AddError(ve: Slice, field: string, message: string): (r: Slice)
    ensures r.Some?
    ensures |Items(r)| == |Items(ve)| + 1
    ensures Items(r)[..|Items(ve)|] == Items(ve)
    ensures Items(r)[|Items(ve)|] == ValidationError(field, message)
  {
    var items := if ve.None? then [] else ve.value;
    Some(items + [ValidationError(field, message)])
  }

  /** `HasErrors` on a pointer to a slice (`None` is the nil pointer). */
  function HasErrors(p: Option<Slice>): (b: bool)
    ensures b <==> p.Some? && Items(p.value) != []
  {
    p != None && p.value.Some? && |p.value.value| > 0
  }

  /** After an addition there are errors, and the earlier ones are kept in
      order. */
  lemma AddThenHasErrors(ve: Slice, field: string, message: string)
    ensures HasErrors(Some(AddError(ve, field, message)))
    ensures ValidationError(field, message) in Items(AddError(ve, field, message))
    ensures forall v :: v in Items(ve) ==> v in Items(AddError(ve, field, message))
  {
    var r := AddError(ve, field, message);
    assert Items(r) == Items(ve) + [ValidationError(field, message)];
  }

  /** Adding in sequence lists the entries in the order added. */
  lemma {:induction false} AddInOrder(ve: Slice, entries: seq<ValidationError>)
    ensures Items(AddAll(ve, entries)) == Items(ve) + entries
    decreases |entries|
  {
    if entries != [] {
      var last := entries[|entries| - 1];
      var init := entries[..|entries| - 1];
      AddInOrder(ve, init);
      var r := AddError(AddAll(ve, init), last.field, last.message);
      assert Items(r) == Items(AddAll(ve, init)) + [last];
      assert init + [last] == entries;
    }
  }

  function AddAll(ve: Slice, entries: seq<ValidationError>): Slice
    decreases |entries|
  {
    if entries == [] then ve
    else
      var last := entries[|entries| - 1];
      AddError(AddAll(ve, entries[..|entries| - 1]), last.field, last.message)
  }

  /** `ValidationError.Error`. */
  function EntryText(v: ValidationError): string {
    "field: " + v.field + ", message: " + v.message
  }

  function EntryTexts(items: seq<ValidationError>): (r: seq<string>)
    ensures |r| == |items|
    ensures forall i :: 0 <= i < |items| ==> r[i] == EntryText(items[i])
  {
    seq(|items|, i requires 0 <= i < |items| => EntryText(items[i]))
  }

  /** `ValidationErrors.Error`: the entries' texts formatted as a Go string
      slice with `%s`, that is in brackets and separated by single spaces. */
  function ListText(ve: Slice): (r: string)
    ensures HasPrefix(r, "validation errors: [") && r[|r| - 1] == ']'
  {
    var r := "validation errors: [" + Join(EntryTexts(Items(ve)), " ") + "]";
    assert r[..|"validation errors: ["|] == "validation errors: [";
    r
  }

  /** One more entry extends the list text: inside the brackets its text
      follows the earlier ones after a single space, or stands alone when
      the list was empty or nil. */
  lemma {:induction false} ListTextAdd(ve: Slice, field: string, message: string)
    ensures var before := ListText(ve);
            var e := EntryText(ValidationError(field, message));
            ListText(AddError(ve, field, message))
            == if Items(ve) == [] then "validation errors: [" + e + "]"
               else before[..|before| - 1] + " " + e + "]"
  {
    var items := Items(ve);
    var v := ValidationError(field, message);
    assert Items(AddError(ve, field, message)) == items + [v];
    assert EntryTexts(items + [v]) == EntryTexts(items) + [EntryText(v)];
    if items == [] {
      assert EntryTexts(items) + [EntryText(v)] == [EntryText(v)];
    } else {
      JoinSnoc(EntryTexts(items), EntryText(v), " ");
      var before := ListText(ve);
      assert before[..|before| - 1] == "validation errors: [" + Join(EntryTexts(items), " ");
    }
  }

  /** A list built by additions prints the entries' texts in the order
      added, separated by single spaces. */
  lemma ListTextOfAdds(entries: seq<ValidationError>)
    ensures ListText(AddAll(None, entries))
            == "validation errors: [" + Join(EntryTexts(entries), " ") + "]"
  {
    AddInOrder(None, entries);
    assert Items(AddAll(None, entries)) == entries;
  }

  /** The list text of one entry embeds that entry's text. */
  lemma ListTextOne(field: string, message: string)
    ensures ListText(AddError(None, field, message))
            == "validation errors: [field: " + field + ", message: " + message + "]"
  {
    assert Items(AddError(None, field, message)) == [ValidationError(field, message)];
    assert EntryTexts([ValidationError(field, message)]) == [EntryText(ValidationError(field, message))];
  }

  // ---------------------------------------------------------------------
  // API errors
  // ---------------------------------------------------------------------

  /** `APIError`. `validation` is the `ValidationErrors` pointer (`None` is
      nil) and `internal` the wrapped cause, which is never serialised. */
  datatype APIError = APIError(
    status: int,
    code: string,
    message: string,
    validation: Option<Slice>,
    internal: Error)

  /** The constructors. */
  datatype Kind =
    | BadRequest | Unauthorized | Forbidden | NotFound | MethodNotAllowed | Conflict
    | UnprocessableEntity | TooManyRequests | InternalServerError | NotImplemented
    | BadGateway | ServiceUnavailable

  function Status(k: Kind): int {
    match k
    case BadRequest => 400
    case Unauthorized => 401
    case Forbidden => 403
    case NotFound => 404
    case MethodNotAllowed => 405
    case Conflict => 409
    case UnprocessableEntity => 422
    case TooManyRequests => 429
    case InternalServerError => 500
    case NotImplemented => 501
    case BadGateway => 502
    case ServiceUnavailable => 503
  }

  function Code(k: Kind): string {
    match k
    case BadRequest => "bad_request"
    case Unauthorized => "unauthorized"
    case Forbidden => "forbidden"
    case NotFound => "not_found"
    case MethodNotAllowed => "method_not_allowed"
    case Conflict => "conflict"
    case UnprocessableEntity => "unprocessable_entity"
    case TooManyRequests => "too_many_requests"
    case InternalServerError => "internal_error"
    case NotImplemented => "not_implemented"
    case BadGateway => "bad_gateway"
    case ServiceUnavailable => "service_unavailable"
  }

  /** The constructor whose status is `status`, if any. */
  function KindOfStatus(status: int): (k: Option<Kind>)
    ensures k.Some? ==> Status(k.value) == status
  {
    if status == 400 then Some(BadRequest)
    else if status == 401 then Some(Unauthorized)
    else if status == 403 then Some(Forbidden)
    else if status == 404 then Some(NotFound)
    else if status == 405 then Some(MethodNotAllowed)
    else if status == 409 then Some(Conflict)
    else if status == 422 then Some(UnprocessableEntity)
    else if status == 429 then Some(TooManyRequests)
    else if status == 500 then Some(InternalServerError)
    else if status == 501 then Some(NotImplemented)
    else if status == 502 then Some(BadGateway)
    else if status == 503 then Some(ServiceUnavailable)
    else None
  }

  /** Each constructor's status is an error status, and it identifies the
      constructor: no two constructors share a status. */
  lemma StatusIdentifiesKind(k: Kind)
    ensures 400 <= Status(k) < 600
    ensures KindOfStatus(Status(k)) == Some(k)
  {
  }

  /** The constructor whose code is `code`, if any. */
  function KindOfCode(code: string): (k: Option<Kind>)
    ensures k.Some? ==> Code(k.value) == code
  {
    if code == "bad_request" then Some(BadRequest)
    else if code == "unauthorized" then Some(Unauthorized)
    else if code == "forbidden" then Some(Forbidden)
    else if code == "not_found" then Some(NotFound)
    else if code == "method_not_allowed" then Some(MethodNotAllowed)
    else if code == "conflict" then Some(Conflict)
    else if code == "unprocessable_entity" then Some(UnprocessableEntity)
    else if code == "too_many_requests" then Some(TooManyRequests)
    else if code == "internal_error" then Some(InternalServerError)
    else if code == "not_implemented" then Some(NotImplemented)
    else if code == "bad_gateway" then Some(BadGateway)
    else if code == "service_unavailable" then Some(ServiceUnavailable)
    else None
  }

  /** The code identifies the constructor too: no two share a code. */
  lemma CodeIdentifiesKind(k: Kind)
    ensures KindOfCode(Code(k)) == Some(k)
  {
  }

  /** Every plain constructor: the fixed pair, the message as given, and
      neither a validation list nor an internal cause. */
  function Make(k: Kind, message: string): (e: APIError)
    ensures e.status == Status(k) && e.code == Code(k) && e.message == message
    ensures e.validation.None? && e.internal.None?
  {
    APIError(Status(k), Code(k), message, None, None)
  }

  /** `InternalServerError`: the only constructor with an internal cause. */
  function Internal(message: string, cause: Error): (e: APIError)
    ensures e == Make(InternalServerError, message).(internal := cause)
  {
    APIError(500, "internal_error", message, None, cause)
  }

  /** `UnprocessableEntity`: the only constructor with a validation list. */
  function Unprocessable(message: string, verrs: Option<Slice>): (e: APIError)
    ensures e == Make(UnprocessableEntity, message).(validation := verrs)
  {
    APIError(422, "unprocessable_entity", message, verrs, None)
  }

  /** `APIError.Error`. */
  function ErrorText(e: APIError): (r: string)
    ensures HasPrefix(r, "APIError: " + e.message + " (code: " + e.code + ", status: ")
    ensures r[|r| - 1] == ')'
  {
    var head := "APIError: " + e.message + " (code: " + e.code + ", status: ";
    var r := head + IntToString(e.status) + ")";
    assert r[..|head|] == head;
    r
  }

  /** Two errors with the same message and code print alike only when their
      statuses are equal, so the text tells the statuses apart. */
  lemma ErrorTextShowsStatus(a: APIError, b: APIError)
    requires a.message == b.message && a.code == b.code
    requires MinInt64 <= a.status <= MaxInt64 && MinInt64 <= b.status <= MaxInt64
    requires ErrorText(a) == ErrorText(b)
    ensures a.status == b.status
  {
    var head := "APIError: " + a.message + " (code: " + a.code + ", status: ";
    var ta := IntToString(a.status);
    var tb := IntToString(b.status);
    assert ErrorText(a) == head + ta + ")";
    assert ErrorText(b) == head + tb + ")";
    assert ta == ErrorText(a)[|head|..|ErrorText(a)| - 1];
    assert tb == ErrorText(b)[|head|..|ErrorText(b)| - 1];
    AtoiIntToString(a.status);
    AtoiIntToString(b.status);
  }
}
