/** The checker: validation of the configured service set, and one check of
    an address, which runs the five sub-checks and hands the assembled result
    to the analyzer. The sub-checks run concurrently in the program, but each
    writes only its own field of the result under a lock, so running them one
    after the other gives the same result. Services are functions from their
    input to a value or an error message; elapsed times are not modelled. */
module Checker {
  import opened Wrappers
  import opened Text
  import opened Model

  // ---------------------------------------------------------------------
  // Configuration
  // ---------------------------------------------------------------------

  /** The sub-check services. `isDisposable` also receives the deadline of
      its call, when it has one. */
  datatype Services = Services(
    isDisposable: (Option<int>, string) -> Result<bool, string>,
    dnsValidation: string -> Result<DNSValidation, string>,
    isWellKnown: string -> Result<bool, string>,
    isEducational: string -> Result<bool, string>,
    patternCheck: string -> Result<PatternCheck, string>,
    analyze: CheckResult -> Report)

  /** A configuration, where each service may be missing (nil). */
  datatype Config = Config(
    disposableService: Option<(Option<int>, string) -> Result<bool, string>>,
    dnsService: Option<string -> Result<DNSValidation, string>>,
    wellKnownService: Option<string -> Result<bool, string>>,
    educationalDomainService: Option<string -> Result<bool, string>>,
    emailPatternService: Option<string -> Result<PatternCheck, string>>,
    analysisService: Option<CheckResult -> Report>)

  /** An error made with `fmt.Errorf("%w: ...", ErrInvalidConfig)`: the
      wrapped sentinel and the text after it. */
  datatype ConfigError = InvalidConfig(detail: string)

  /** The missing services in the order `Validate` tests them, each with
      its message. */
  function MissingServices(c: Config): seq<string> {
    (if c.disposableService.None? then ["disposable service is required"] else [])
    + (if c.dnsService.None? then ["DNS service is required"] else [])
    + (if c.wellKnownService.None? then ["well-known service is required"] else [])
    + (if c.educationalDomainService.None? then ["educational domain service is required"] else [])
    + (if c.emailPatternService.None? then ["email pattern service is required"] else [])
    + (if c.analysisService.None? then ["analysis service is required"] else [])
  }

  /** `Config.Validate`. */
  function Validate(c: Option<Config>): Option<ConfigError> {
    match c
    case None => Some(InvalidConfig("config cannot be nil"))
    case Some(c) =>
      if c.disposableService.None? then Some(InvalidConfig("disposable service is required"))
      else if c.dnsService.None? then Some(InvalidConfig("DNS service is required"))
      else if c.wellKnownService.None? then Some(InvalidConfig("well-known service is required"))
      else if c.educationalDomainService.None? then Some(InvalidConfig("educational domain service is required"))
      else if c.emailPatternService.None? then Some(InvalidConfig("email pattern service is required"))
      else if c.analysisService.None? then Some(InvalidConfig("analysis service is required"))
      else None
  }

  predicate Complete(c: Config) {
    && c.disposableService.Some? && c.dnsService.Some? && c.wellKnownService.Some?
    && c.educationalDomainService.Some? && c.emailPatternService.Some? && c.analysisService.Some?
  }

  /** A nil configuration is rejected; otherwise validation passes exactly
      when all six services are present, and an error names the first
      missing one in the fixed order. */
  lemma ValidateSpec(c: Option<Config>)
    ensures c.None? ==> Validate(c) == Some(InvalidConfig("config cannot be nil"))
    ensures c.Some? ==> (Validate(c).None? <==> Complete(c.value))
    ensures c.Some? ==> (Validate(c).None? <==> MissingServices(c.value) == [])
    ensures c.Some? && Validate(c).Some? ==> Validate(c).value.detail == MissingServices(c.value)[0]
  {
  }

  /** `New`: the configured services, or the validation error. */
  function New(c: Option<Config>): (r: Result<Services, ConfigError>)
    ensures r.Err? <==> Validate(c).Some?
    ensures r.Err? ==> r.error == Validate(c).value
    ensures r.Ok? ==> c.Some? && Complete(c.value)
    ensures r.Ok? ==> && Some(r.value.isDisposable) == c.value.disposableService
                      && Some(r.value.dnsValidation) == c.value.dnsService
                      && Some(r.value.isWellKnown) == c.value.wellKnownService
                      && Some(r.value.isEducational) == c.value.educationalDomainService
                      && Some(r.value.patternCheck) == c.value.emailPatternService
                      && Some(r.value.analyze) == c.value.analysisService
  {
    match Validate(c)
    case Some(e) => Err(e)
    case None =>
      var c := c.value;
      Ok(Services(
        c.disposableService.value, c.dnsService.value, c.wellKnownService.value,
        c.educationalDomainService.value, c.emailPatternService.value, c.analysisService.value))
  }

  // ---------------------------------------------------------------------
  // One check
  // ---------------------------------------------------------------------

  /** 200 milliseconds, in nanoseconds. */
  const DefaultDisposableTimeout: int := 200 * 1000 * 1000

  /** The deadline the disposable sub-check gets: the parameter, or 200 ms when it is zero. */
  function DisposableTimeout(params: Params): (t: int)
    ensures params.disposableTimeout != 0 ==> t == params.disposableTimeout
    ensures params.disposableTimeout == 0 ==> t == DefaultDisposableTimeout
  {
    if params.disposableTimeout == 0 then DefaultDisposableTimeout else params.disposableTimeout
  }

  /** A finished sub-check: checked, and either the error or the value. */
  function Finished<T>(answer: Result<T, string>, zero: T): (s: SubCheck<T>)
    ensures s.checked
    ensures answer.Ok? ==> s.value == answer.value && s.err.None?
    ensures answer.Err? ==> s.value == zero && s.err == Some(answer.error)
  {
    match answer
    case Ok(v) => SubCheck(true, v, None)
    case Err(e) => SubCheck(true, zero, Some(e))
  }

  /** The flag of one mail exchanger: the disposable service's answer for
      its host, or unchanged when that lookup fails. The lookup has no deadline. */
  function FlagMX(svc: Services, mx: MXRecord): MXRecord {
    match svc.isDisposable(None, mx.value)
    case Ok(b) => mx.(disposable := b)
    case Err(_) => mx
  }

  function FlagAllMX(svc: Services, mxs: seq<MXRecord>): (r: seq<MXRecord>)
    ensures |r| == |mxs|
    ensures forall i :: 0 <= i < |mxs| ==> r[i] == FlagMX(svc, mxs[i])
  {
    seq(|mxs|, i requires 0 <= i < |mxs| => FlagMX(svc, mxs[i]))
  }

  /** `performDisposableCheck`: writes the disposable field alone. */
  function PerformDisposable(svc: Services, params: Params, domain: string, r: CheckResult): (r': CheckResult)
    ensures r' == r.(disposable := r'.disposable)
    ensures params.skipDisposable ==> r' == r
  {
    if params.skipDisposable then r
    else r.(disposable := Finished(svc.isDisposable(Some(DisposableTimeout(params)), domain), false))
  }

  /** `performDNSCheck`: writes the DNS field alone, with every mail
      exchanger flagged by the disposable service. */
  function PerformDNS(svc: Services, params: Params, domain: string, r: CheckResult): (r': CheckResult)
    ensures r' == r.(dns := r'.dns)
    ensures params.skipDNS ==> r' == r
  {
    if params.skipDNS then r
    else
      var answer := match svc.dnsValidation(domain)
        case Ok(v) => Ok(v.(mxRecords := FlagAllMX(svc, v.mxRecords)))
        case Err(e) => Err(e);
      r.(dns := Finished(answer, r.dns.value))
  }

  /** `performWellKnownCheck`: writes the well-known field alone. */
  function PerformWellKnown(svc: Services, params: Params, domain: string, r: CheckResult): (r': CheckResult)
    ensures r' == r.(wellKnown := r'.wellKnown)
    ensures params.skipWellKnown ==> r' == r
  {
    if params.skipWellKnown then r
    else r.(wellKnown := Finished(svc.isWellKnown(domain), false))
  }

  /** `performEducationalCheck`: writes the educational field alone. */
  function PerformEducational(svc: Services, params: Params, domain: string, r: CheckResult): (r': CheckResult)
    ensures r' == r.(educational := r'.educational)
    ensures params.skipEducational ==> r' == r
  {
    if params.skipEducational then r
    else r.(educational := Finished(svc.isEducational(domain), false))
  }

  /** `performEmailPatternCheck`: writes the pattern field alone; it reads the whole address. */
  function PerformPattern(svc: Services, params: Params, email: string, r: CheckResult): (r': CheckResult)
    ensures r' == r.(pattern := r'.pattern)
    ensures params.skipPattern ==> r' == r
  {
    if params.skipPattern then r
    else r.(pattern := Finished(svc.patternCheck(email), r.pattern.value))
  }

  /** The address is refused unless it has an `@` that is not its last rune. */
  predicate HasDomain(email: string) {
    var idx := LastIndexOf(email, '@');
    0 <= idx < |email| - 1
  }

  /** The text after the last `@`. */
  function DomainOf(email: string): string
    requires HasDomain(email)
  {
    email[LastIndexOf(email, '@') + 1..]
  }

  /** The sub-checks, in the order the program starts them, on the empty
      result for the address. */
  function RunSubChecks(svc: Services, params: Params, domain: string): CheckResult {
    var r0 := EmptyResult.(email := params.email);
    var r1 := PerformDNS(svc, params, domain, r0);
    var r2 := PerformDisposable(svc, params, domain, r1);
    var r3 := PerformWellKnown(svc, params, domain, r2);
    var r4 := PerformEducational(svc, params, domain, r3);
    PerformPattern(svc, params, params.email, r4)
  }

  /** `EmailChecker.Check`: the sub-checks, then the analysis of the assembled result. */
  function Check(svc: Services, params: Params): (r: Result<CheckResult, string>)
    ensures r.Err? <==> !HasDomain(params.email)
    ensures r.Err? ==> r.error == "invalid email address: " + params.email
    ensures r.Ok? ==> r.value.email == params.email
  {
    if !HasDomain(params.email) then Err("invalid email address: " + params.email)
    else
      var sub := RunSubChecks(svc, params, DomainOf(params.email));
      Ok(sub.(analysis := Some(svc.analyze(sub))))
  }

  // ---------------------------------------------------------------------
  // Properties of a check
  // ---------------------------------------------------------------------

  /** An address is refused exactly when it has no `@` or ends in one; an
      `@` in front is accepted. */
  lemma {:induction false} CheckRefuses(svc: Services, params: Params)
    ensures Check(svc, params).Err? <==> '@' !in params.email || params.email[|params.email| - 1] == '@'
  {
    var e := params.email;
    var idx := LastIndexOf(e, '@');
    if '@' in e && e[|e| - 1] != '@' {
      assert idx != |e| - 1;
    }
  }

  /** The domain handed to the domain sub-checks is the text after the last
      `@`: the address is some text, an `@`, and the domain, which has no `@`
      and is not empty. */
  lemma {:induction false} DomainAfterLastAt(email: string)
    requires HasDomain(email)
    ensures var d := DomainOf(email);
            && d != [] && '@' !in d
            && email == email[..|email| - |d| - 1] + "@" + d
  {
    var idx := LastIndexOf(email, '@');
    var d := DomainOf(email);
    forall i | 0 <= i < |d| ensures d[i] != '@' {
      assert d[i] == email[idx + 1 + i];
    }
    assert email == email[..idx] + "@" + d;
  }

  /** The result of a check, field by field: each sub-check is skipped and
      unchecked, or checked with either its error or its value; the mail
      exchangers carry the disposable service's flags; the disposable
      service gets the deadline; the analysis is the analyzer's verdict on
      the rest of the result. */
  lemma CheckFields(svc: Services, params: Params)
    requires HasDomain(params.email)
    ensures var d := DomainOf(params.email);
            var r := Check(svc, params).value;
            && (r.disposable == if params.skipDisposable then NotRun(false)
                                else Finished(svc.isDisposable(Some(DisposableTimeout(params)), d), false))
            && (r.wellKnown == if params.skipWellKnown then NotRun(false) else Finished(svc.isWellKnown(d), false))
            && (r.educational == if params.skipEducational then NotRun(false) else Finished(svc.isEducational(d), false))
            && (r.pattern == if params.skipPattern then NotRun(NoPatternFlags)
                             else Finished(svc.patternCheck(params.email), NoPatternFlags))
            && (params.skipDNS ==> r.dns == NotRun(EmptyDNS("")))
            && (!params.skipDNS && svc.dnsValidation(d).Err? ==>
                  r.dns == SubCheck(true, EmptyDNS(""), Some(svc.dnsValidation(d).error)))
            && (!params.skipDNS && svc.dnsValidation(d).Ok? ==>
                  r.dns.checked && r.dns.err.None?
                  && r.dns.value == svc.dnsValidation(d).value.(mxRecords := r.dns.value.mxRecords)
                  && |r.dns.value.mxRecords| == |svc.dnsValidation(d).value.mxRecords|
                  && forall i :: 0 <= i < |r.dns.value.mxRecords| ==>
                       r.dns.value.mxRecords[i] == FlagMX(svc, svc.dnsValidation(d).value.mxRecords[i]))
            && r.analysis == Some(svc.analyze(r.(analysis := None)))
  {
  }

  /** A sub-check that ran has its error or its value, never both. */
  lemma FinishedExclusive<T>(answer: Result<T, string>, zero: T)
    ensures Finished(answer, zero).err.Some? <==> answer.Err?
    ensures Finished(answer, zero).err.Some? ==> Finished(answer, zero).value == zero
  {
  }

  /** A mail exchanger's flag is the disposable answer for its host, and
      stays as it was when the lookup fails. */
  lemma FlagMXSpec(svc: Services, mx: MXRecord)
    ensures FlagMX(svc, mx).value == mx.value && FlagMX(svc, mx).priority == mx.priority
    ensures svc.isDisposable(None, mx.value).Ok? ==> FlagMX(svc, mx).disposable == svc.isDisposable(None, mx.value).value
    ensures svc.isDisposable(None, mx.value).Err? ==> FlagMX(svc, mx).disposable == mx.disposable
  {
  }

  /** Because every sub-check writes its own field, the order in which they
      finish does not matter: running them in reverse gives the same result. */
  lemma {:induction false} OrderIrrelevant(svc: Services, params: Params, domain: string)
    ensures var r0 := EmptyResult.(email := params.email);
            PerformDNS(svc, params, domain,
              PerformDisposable(svc, params, domain,
                PerformWellKnown(svc, params, domain,
                  PerformEducational(svc, params, domain,
                    PerformPattern(svc, params, params.email, r0)))))
            == RunSubChecks(svc, params, domain)
  {
  }
}
