/** The records the checker passes between its parts: the result of every
    sub-check, the DNS summary, the risk report and the request parameters.
    Elapsed times are clock readings and are not modelled. */
module Model {
  import opened Wrappers

  /** The four findings of the local-part heuristics. */
  datatype PatternCheck = PatternCheck(
    shortLocalPart: bool,
    hasRandomPattern: bool,
    tooManyConsecutiveNumbers: bool,
    tooManySpecialChars: bool)

  /** One mail exchanger: host, preference, and whether the host is disposable. */
  datatype MXRecord = MXRecord(value: string, priority: int, disposable: bool)

  /** What the DNS lookups say about a domain. */
  datatype DNSValidation = DNSValidation(
    domain: string,
    hasMX: bool,
    hasSPF: bool,
    hasDMARC: bool,
    isParked: bool,
    aRecords: seq<string>,
    nsRecords: seq<string>,
    mxRecords: seq<MXRecord>,
    spfRecord: string,
    dmarcRecord: string)

  /** The zero value of `DNSValidation` for a domain, before any answer is read. */
  function EmptyDNS(domain: string): DNSValidation {
    DNSValidation(domain, false, false, false, false, [], [], [], "", "")
  }

  /** The outcome of one sub-check: whether it ran, its value and its error. */
  datatype SubCheck<T> = SubCheck(checked: bool, value: T, err: Error)

  datatype RiskLevel = Low | Medium | High {
    /** The JSON spelling of the level. */
    function Name(): string {
      match this
      case Low => "low"
      case Medium => "medium"
      case High => "high"
    }
  }

  /** The analyzer's verdict; `score` is in hundredths, so 100 stands for 1.0. */
  datatype Report = Report(level: RiskLevel, score: int, reasons: seq<string>)

  datatype CheckResult = CheckResult(
    email: string,
    disposable: SubCheck<bool>,
    wellKnown: SubCheck<bool>,
    educational: SubCheck<bool>,
    dns: SubCheck<DNSValidation>,
    pattern: SubCheck<PatternCheck>,
    analysis: Option<Report>)

  const NoPatternFlags := PatternCheck(false, false, false, false)

  /** A sub-check that has not run, holding the zero value of its type. */
  function NotRun<T>(zero: T): SubCheck<T> {
    SubCheck(false, zero, None)
  }

  /** The zero value of `CheckResult`. */
  const EmptyResult: CheckResult := CheckResult(
    "", NotRun(false), NotRun(false), NotRun(false), NotRun(EmptyDNS("")),
    NotRun(NoPatternFlags), None)

  /** Parameters of one check; `disposableTimeout` is a duration in nanoseconds. */
  datatype Params = Params(
    email: string,
    skipDisposable: bool,
    disposableTimeout: int,
    disposableStrict: bool,
    skipDNS: bool,
    skipWellKnown: bool,
    skipPattern: bool,
    skipEducational: bool)

  /** Parameters with only the address set, every skip flag off. */
  function DefaultParams(email: string): Params {
    Params(email, false, 0, false, false, false, false, false)
  }
}
