// The API handlers: the check endpoint, the operational endpoints, and the
// host allow-list middleware in front of them.

module Handlers {
  import opened Wrappers
  import opened Text
  import opened Model
  import opened HttpExt
  import opened ApiErrors
  import opened Responder
  import Checker

  // ---------------------------------------------------------------------
  // Check
  // ---------------------------------------------------------------------

  /** `url.QueryUnescape`, which is not part of this model. */
  type Unescape = string -> Result<string, string>

  /** The checker as the handler calls it. */
  type CheckFn = Params -> Result<CheckResult, string>

  /** `CheckEmail`: the path parameter unescaped, checked with every
      sub-check enabled, and the result or an API error returned. */
  function CheckEmail(unescape: Unescape, check: CheckFn, raw: string): (o: Outcome<CheckResult>)
    ensures o.Returned?
    ensures unescape(raw).Err? ==>
              o.err == Some(Make(BadRequest, "Invalid email parameter: failed to decode URL")) && o.data.None?
    ensures unescape(raw).Ok? && check(DefaultParams(unescape(raw).value)).Err? ==>
              o.err == Some(Internal("Failed to check email", Some(check(DefaultParams(unescape(raw).value)).error)))
              && o.data.None?
    ensures unescape(raw).Ok? && check(DefaultParams(unescape(raw).value)).Ok? ==>
              o == Returned(Some(check(DefaultParams(unescape(raw).value)).value), None)
  {
    match unescape(raw)
    case Err(_) => Returned(None, Some(Make(BadRequest, "Invalid email parameter: failed to decode URL")))
    case Ok(email) =>
      match check(DefaultParams(email))
      case Err(e) => Returned(None, Some(Internal("Failed to check email", Some(e))))
      case Ok(result) => Returned(Some(result), None)
  }

  /** With the real checker, an address without a domain part is answered
      with 500 `internal_error`, carrying the checker's message as the cause;
      any other address with its own result. */
  lemma CheckEmailWithChecker(svc: Checker.Services, unescape: Unescape, raw: string, email: string)
    requires unescape(raw) == Ok(email)
    ensures var o := CheckEmail(unescape, p => Checker.Check(svc, p), raw);
            && (!Checker.HasDomain(email) ==>
                  o.err == Some(Internal("Failed to check email", Some("invalid email address: " + email)))
                  && o.err.value.status == 500 && o.err.value.code == "internal_error")
            && (Checker.HasDomain(email) ==> o.err.None? && o.data.Some? && o.data.value.email == email)
  {
    assert DefaultParams(email).email == email;
  }

  // ---------------------------------------------------------------------
  // Operations
  // ---------------------------------------------------------------------

  /** A handler's context afterwards and what it returned. */
  datatype Handled = Handled(ctx: Context, outcome: Outcome<CheckResult>)

  /** `Health`: 204 in the context, nothing returned. */
  function Health(ctx: Context): (h: Handled)
    ensures GetStatusCode(h.ctx) == 204
    ensures h.outcome == Returned(None, None)
  {
    Handled(SetStatusCode(ctx, 204), Returned(None, None))
  }

  /** `NotFound`: 404 in the context and a `not_found` error. */
  function NotFoundHandler(ctx: Context): (h: Handled)
    ensures GetStatusCode(h.ctx) == 404
    ensures h.outcome == Returned(None, Some(Make(NotFound, "not found")))
  {
    Handled(SetStatusCode(ctx, 404), Returned(None, Some(Make(NotFound, "not found"))))
  }

  /** `MethodNotAllowed`: 405 in the context and a `method_not_allowed` error. */
  function MethodNotAllowedHandler(ctx: Context): (h: Handled)
    ensures GetStatusCode(h.ctx) == 405
    ensures h.outcome == Returned(None, Some(Make(MethodNotAllowed, "not allowed")))
  {
    Handled(SetStatusCode(ctx, 405), Returned(None, Some(Make(MethodNotAllowed, "not allowed"))))
  }

  /** Served through the adapter, the three operational handlers answer 204
      with no body, 404 and 405; none of them returns data. */
  lemma OpsServed(ctx: Context, enc: Encoders<CheckResult>)
    ensures var h := Health(ctx);
            Handle(h.ctx, h.outcome, enc, true) == [SetContentType("application/json"), WriteHeaderEvent(204)]
    ensures var h := NotFoundHandler(ctx);
            Handle(h.ctx, h.outcome, enc, true)[1] == WriteHeaderEvent(404) && h.outcome.data.None?
    ensures var h := MethodNotAllowedHandler(ctx);
            Handle(h.ctx, h.outcome, enc, true)[1] == WriteHeaderEvent(405) && h.outcome.data.None?
  {
  }

  // ---------------------------------------------------------------------
  // Host allow-list
  // ---------------------------------------------------------------------

  const DefaultAllowedHosts := "localhost:8080"

  /** The allowed hosts: `ALLOWED_HOSTS` split on commas, untrimmed, or the
      default when it is empty. */
  function AllowedHosts(env: string): (r: set<string>)
    ensures forall h :: h in r <==> h in SplitOn(if env == "" then DefaultAllowedHosts else env, ',')
  {
    var hosts := if env == "" then DefaultAllowedHosts else env;
    set h | h in SplitOn(hosts, ',')
  }

  /** What the middleware does with a request. */
  datatype Gate = Forward | Forbid

  /** `HostValidation`: an empty Host, or one not exactly in the set, is
      refused; anything else is passed to the next handler. */
  function HostValidation(env: string, host: string): (g: Gate)
    ensures g == Forward <==> host != "" && host in AllowedHosts(env)
  {
    if host == "" || host !in AllowedHosts(env) then Forbid else Forward
  }

  /** What the middleware itself writes: 403 when refusing, nothing when
      passing on (the next handler is then called once). */
  function GateEvents(g: Gate): (events: seq<Event>)
    ensures g == Forward <==> events == []
  {
    match g
    case Forbid => [WriteHeaderEvent(403)]
    case Forward => []
  }

  /** Splitting text with no separator gives the text itself. */
  lemma SplitWithoutSeparator(s: string, c: char)
    requires c !in s
    ensures SplitOn(s, c) == [s]
  {
  }

  /** A setting without commas allows exactly that one host. */
  lemma SingleHostAllowed(env: string, host: string)
    requires env != "" && ',' !in env
    ensures HostValidation(env, host) == Forward <==> host == env
  {
    SplitWithoutSeparator(env, ',');
  }

  /** Without `ALLOWED_HOSTS` (an empty setting) only `localhost:8080` gets through. */
  lemma DefaultAllowsLocalhostOnly(env: string, host: string)
    requires env == ""
    ensures HostValidation(env, host) == Forward <==> host == "localhost:8080"
  {
    var d := DefaultAllowedHosts;
    assert forall i :: 0 <= i < |d| ==> d[i] != ',';
    SingleHostAllowed(d, host);
    assert AllowedHosts(env) == AllowedHosts(d);
  }

  /** Two comma-separated hosts allow exactly those two, compared exactly:
      a different letter case or surrounding blank is refused. */
  lemma TwoHostsAllowed(a: string, b: string, host: string)
    requires ',' !in a && ',' !in b && a != "" && b != ""
    ensures HostValidation(a + "," + b, host) == Forward <==> host == a || host == b
  {
    var env := a + "," + b;
    assert IndexOf(env, ',') == |a| by {
      assert env[|a|] == ',';
      assert env[..|a|] == a;
    }
    assert env[..|a|] == a && env[|a| + 1..] == b;
    SplitWithoutSeparator(b, ',');
    assert SplitOn(env, ',') == [env[..|a|]] + SplitOn(env[|a| + 1..], ',');
    assert SplitOn(env, ',') == [a, b];
  }

  /** A trailing comma puts the empty name in the set, but an empty Host is
      still refused. */
  lemma EmptyHostRefused(env: string)
    ensures HostValidation(env, "") == Forbid
    ensures GateEvents(HostValidation(env, "")) == [WriteHeaderEvent(403)]
  {
  }
}
