/** The risk analyzer: a total rule chain from the assembled check result to
    a risk level, a score and the reasons behind it. Scores are kept in
    hundredths, so 0.15 is 15 and 1.0 is 100. */
module Analyzer {
  import opened Wrappers
  import opened Text
  import opened Model

  const ReasonDisposableBlocked := "Disposable email provider blocked"
  const ReasonDomainCannotReceiveEmail := "Domain cannot receive email"
  const ReasonSuspiciousEmailPatternDetected := "Suspicious email pattern detected"
  const ReasonShortLocalPart := "Email has unusually short local part"
  const ReasonTooManyConsecutiveNumbers := "Email has too many consecutive numbers"
  const ReasonEmailHasExcessiveSpecialChars := "Email has excessive special characters"
  const ReasonMultipleSuspiciousPatternsDetected := "Multiple suspicious patterns detected - likely automated"
  const ReasonRandomPatternOnWellKnownDomain := "Random pattern on well-known domain - likely bot generated"
  const ReasonRandomPatternOnUnknownDomain := "Random pattern on unknown domain - likely bot generated"
  const ReasonWellKnownEmailProvider := "Well-known email provider"
  const ReasonUnknownEmailProvider := "Unknown email provider"
  const ReasonOnlyOneMXRecord := "Domain has only one MX record"
  const ReasonLackSPFRecord := "Domain lacks SPF record"
  const ReasonStrictSPFPolicy := "Domain has strict SPF policy"
  const ReasonDomainLacksDMARC := "Domain lacks DMARC record"
  const ReasonHasStrongDMARCPolicy := "Domain has strong DMARC policy"
  const ReasonNoSupiciousSignalsDetected := "No suspicious signals detected"
  const ReasonEducationalInstitutionDomain := "Email from educational institution domain"
  const ReasonStudentIDStaffIDPatternDetected := "Student/Staff ID pattern detected"

  /** The level a score in hundredths falls into: high from 0.7, medium from 0.4. */
  function LevelOf(score: int): RiskLevel {
    if score >= 70 then High else if score >= 40 then Medium else Low
  }

  /** A higher score never gives a lower level. */
  lemma LevelOfMonotone(a: int, b: int)
    requires a <= b
    ensures LevelOf(a) == High ==> LevelOf(b) == High
    ensures LevelOf(b) == Low ==> LevelOf(a) == Low
  {
  }

  /** `math.Max(0, math.Min(1, score))` in hundredths. */
  function Clamp(score: int): (c: int)
    ensures 0 <= c <= 100
    ensures 0 <= score <= 100 ==> c == score
    ensures score < 0 ==> c == 0
    ensures score > 100 ==> c == 100
  {
    if score < 0 then 0 else if score > 100 then 100 else score
  }

  predicate IsEducational(r: CheckResult) {
    r.educational.checked && r.educational.value
  }

  predicate IsWellKnown(r: CheckResult) {
    r.wellKnown.checked && r.wellKnown.value
  }

  /** The state the pattern block leaves behind: suspicion level, whether
      the random pattern counts, and the reasons so far. */
  datatype PatternState = PatternState(suspicion: nat, random: bool, reasons: seq<string>)

  /** The pattern block before the threshold test. */
  function PatternFindings(p: PatternCheck, edu: bool): PatternState {
    var s0 := PatternState(0, false, []);
    var s1 :=
      if !p.hasRandomPattern then s0
      else if edu then s0.(reasons := s0.reasons + [ReasonEducationalInstitutionDomain])
      else PatternState(s0.suspicion + 1, true, s0.reasons + [ReasonSuspiciousEmailPatternDetected]);
    var s2 :=
      if p.shortLocalPart && !edu
      then s1.(suspicion := s1.suspicion + 1, reasons := s1.reasons + [ReasonShortLocalPart])
      else s1;
    var s3 :=
      if !p.tooManyConsecutiveNumbers then s2
      else if !edu then s2.(suspicion := s2.suspicion + 1, reasons := s2.reasons + [ReasonTooManyConsecutiveNumbers])
      else s2.(reasons := s2.reasons + [ReasonStudentIDStaffIDPatternDetected]);
    if p.tooManySpecialChars
    then s3.(suspicion := s3.suspicion + 1, reasons := s3.reasons + [ReasonEmailHasExcessiveSpecialChars])
    else s3
  }

  /** The threshold at which suspicion alone blocks the address. */
  function BlockThreshold(edu: bool): nat {
    if edu then 4 else 3
  }

  /** Flag penalties; an educational domain is spared the short-local-part
      and digit-run penalties. */
  function PatternScore(r: CheckResult, edu: bool): int {
    if !r.pattern.checked then 0
    else
      var p := r.pattern.value;
      (if p.shortLocalPart && !edu then 20 else 0)
      + (if p.tooManyConsecutiveNumbers && !edu then 20 else 0)
      + (if p.tooManySpecialChars then 15 else 0)
  }

  /** The provider and educational adjustments with their reasons. */
  function DomainScore(r: CheckResult, edu: bool): (int, seq<string>) {
    var (known, reasons) :=
      if !r.wellKnown.checked then (0, [])
      else if r.wellKnown.value then (-15, [ReasonWellKnownEmailProvider])
      else (25, [ReasonUnknownEmailProvider]);
    if edu then (known - 20, reasons + [ReasonEducationalInstitutionDomain]) else (known, reasons)
  }

  /** The mail-infrastructure adjustments with their reasons. */
  function DnsScore(r: CheckResult): (int, seq<string>) {
    if !r.dns.checked then (0, [])
    else
      var d := r.dns.value;
      var (mx, mxReasons) := if |d.mxRecords| == 1 then (10, [ReasonOnlyOneMXRecord]) else (0, []);
      var (spf, spfReasons) :=
        if !d.hasSPF then (10, [ReasonLackSPFRecord])
        else if Contains(d.spfRecord, "-all") then (-5, [ReasonStrictSPFPolicy])
        else (0, []);
      var (dmarc, dmarcReasons) :=
        if !d.hasDMARC then (10, [ReasonDomainLacksDMARC])
        else if Contains(d.dmarcRecord, "p=reject") || Contains(d.dmarcRecord, "p=quarantine")
        then (-10, [ReasonHasStrongDMARCPolicy])
        else (0, []);
      (mx + spf + dmarc, mxReasons + spfReasons + dmarcReasons)
  }

  /** The scoring path, reached when no early return fires; `reasons` are
      the ones the pattern block already recorded. */
  function ScoredReport(r: CheckResult, edu: bool, reasons: seq<string>): Report {
    var (domain, domainReasons) := DomainScore(r, edu);
    var (dns, dnsReasons) := DnsScore(r);
    var score := Clamp(PatternScore(r, edu) + domain + dns);
    var all := reasons + domainReasons + dnsReasons;
    Report(LevelOf(score), score, if all == [] then [ReasonNoSupiciousSignalsDetected] else all)
  }

  /** `Analyzer.Analyze`. Whatever path is taken, the score lies in [0, 1],
      the level is the one the score falls into, and there is a reason. */
  function Analyze(r: CheckResult): (rep: Report)
    ensures 0 <= rep.score <= 100
    ensures rep.level == LevelOf(rep.score)
    ensures |rep.reasons| > 0
  {
    var edu := IsEducational(r);
    if r.disposable.checked && r.disposable.value then
      Report(High, 100, [ReasonDisposableBlocked])
    else if r.dns.checked && !r.dns.value.hasMX then
      Report(High, 100, [ReasonDomainCannotReceiveEmail])
    else if !r.pattern.checked then
      ScoredReport(r, edu, [])
    else
      var s := PatternFindings(r.pattern.value, edu);
      if s.suspicion >= BlockThreshold(edu) then
        Report(High, 90, s.reasons + [ReasonMultipleSuspiciousPatternsDetected])
      else if s.random && !edu then
        Report(High, 80, s.reasons + [if IsWellKnown(r) then ReasonRandomPatternOnWellKnownDomain
                                     else ReasonRandomPatternOnUnknownDomain])
      else
        ScoredReport(r, edu, s.reasons)
  }

  // ---------------------------------------------------------------------
  // Properties of the rule chain
  // ---------------------------------------------------------------------

  /** A disposable domain is blocked outright, whatever else was found. */
  lemma DisposableFirst(r: CheckResult)
    requires r.disposable.checked && r.disposable.value
    ensures Analyze(r) == Report(High, 100, [ReasonDisposableBlocked])
  {
  }

  /** Otherwise a domain without MX records is blocked outright. */
  lemma NoMXSecond(r: CheckResult)
    requires !(r.disposable.checked && r.disposable.value)
    requires r.dns.checked && !r.dns.value.hasMX
    ensures Analyze(r) == Report(High, 100, [ReasonDomainCannotReceiveEmail])
  {
  }

  /** The number of raised flags that count as suspicious. */
  function SuspiciousFlags(p: PatternCheck, edu: bool): nat {
    (if p.hasRandomPattern && !edu then 1 else 0)
    + (if p.shortLocalPart && !edu then 1 else 0)
    + (if p.tooManyConsecutiveNumbers && !edu then 1 else 0)
    + (if p.tooManySpecialChars then 1 else 0)
  }

  /** The pattern block counts exactly the suspicious flags, records one
      reason per raised flag, and the random pattern counts only off an
      educational domain. */
  lemma PatternFindingsSpec(p: PatternCheck, edu: bool)
    ensures var s := PatternFindings(p, edu);
            && s.suspicion == SuspiciousFlags(p, edu)
            && (s.random <==> p.hasRandomPattern && !edu)
            && |s.reasons| == (if p.hasRandomPattern then 1 else 0) + (if p.shortLocalPart && !edu then 1 else 0)
                              + (if p.tooManyConsecutiveNumbers then 1 else 0) + (if p.tooManySpecialChars then 1 else 0)
            && (p.tooManySpecialChars <==> ReasonEmailHasExcessiveSpecialChars in s.reasons)
  {
  }

  /** On an educational domain only excessive special runes raise
      suspicion, so it never reaches the threshold of four. */
  lemma EducationalSuspicion(p: PatternCheck)
    ensures PatternFindings(p, true).suspicion <= 1 < BlockThreshold(true)
  {
  }

  /** Unless blocked outright, an educational address scores at most 0.5
      and never ends high. */
  lemma EducationalNeverHigh(r: CheckResult)
    requires IsEducational(r)
    requires !(r.disposable.checked && r.disposable.value)
    requires !(r.dns.checked && !r.dns.value.hasMX)
    ensures Analyze(r).score <= 50
    ensures Analyze(r).level != High
    ensures ReasonMultipleSuspiciousPatternsDetected !in Analyze(r).reasons
  {
    if r.pattern.checked {
      EducationalSuspicion(r.pattern.value);
    }
    var s := PatternFindings(r.pattern.value, true);
    assert ReasonMultipleSuspiciousPatternsDetected !in s.reasons;
  }

  /** Three or more suspicious flags off an educational domain score 0.9,
      high, with the multiple-patterns reason last. */
  lemma ManyFlagsBlock(r: CheckResult)
    requires !(r.disposable.checked && r.disposable.value)
    requires !(r.dns.checked && !r.dns.value.hasMX)
    requires r.pattern.checked && !IsEducational(r)
    requires SuspiciousFlags(r.pattern.value, false) >= 3
    ensures Analyze(r).score == 90 && Analyze(r).level == High
    ensures Analyze(r).reasons[|Analyze(r).reasons| - 1] == ReasonMultipleSuspiciousPatternsDetected
  {
    PatternFindingsSpec(r.pattern.value, false);
  }

  /** A random pattern off an educational domain always ends high; below
      three flags it scores 0.8 and names the domain kind last. */
  lemma RandomPatternHigh(r: CheckResult)
    requires !(r.disposable.checked && r.disposable.value)
    requires !(r.dns.checked && !r.dns.value.hasMX)
    requires r.pattern.checked && !IsEducational(r) && r.pattern.value.hasRandomPattern
    ensures Analyze(r).level == High
    ensures Analyze(r).score == 90 || Analyze(r).score == 80
    ensures Analyze(r).score == 80 ==>
      (Analyze(r).reasons[|Analyze(r).reasons| - 1] == ReasonRandomPatternOnWellKnownDomain <==> IsWellKnown(r))
  {
    PatternFindingsSpec(r.pattern.value, false);
  }

  /** An educational domain takes 0.2 off the domain score, with its reason. */
  lemma EducationalDiscount(r: CheckResult)
    ensures DomainScore(r, true).0 == DomainScore(r, false).0 - 20
    ensures DomainScore(r, true).1 == DomainScore(r, false).1 + [ReasonEducationalInstitutionDomain]
  {
  }

  /** An educational domain's flag penalty depends on the special-rune flag alone. */
  lemma EducationalPenalties(r: CheckResult, r': CheckResult)
    requires r.pattern.checked == r'.pattern.checked
    requires r.pattern.value.tooManySpecialChars == r'.pattern.value.tooManySpecialChars
    ensures PatternScore(r, true) == PatternScore(r', true)
    ensures PatternScore(r, true) <= PatternScore(r, false)
  {
  }

  /** The scoring path is monotone in its parts: when each of the pattern,
      provider and mail-infrastructure adjustments is at least another
      result's, so is the score, and the level is never lower. */
  lemma ScoredMonotone(r: CheckResult, r': CheckResult, edu: bool, reasons: seq<string>, reasons': seq<string>)
    requires PatternScore(r, edu) <= PatternScore(r', edu)
    requires DomainScore(r, edu).0 <= DomainScore(r', edu).0
    requires DnsScore(r).0 <= DnsScore(r').0
    ensures ScoredReport(r, edu, reasons).score <= ScoredReport(r', edu, reasons').score
    ensures ScoredReport(r, edu, reasons).level == High ==> ScoredReport(r', edu, reasons').level == High
    ensures ScoredReport(r', edu, reasons').level == Low ==> ScoredReport(r, edu, reasons).level == Low
  {
    LevelOfMonotone(ScoredReport(r, edu, reasons).score, ScoredReport(r', edu, reasons').score);
  }

  /** With everything else equal, a well-known provider never scores more
      than an unknown one, on any path of the rule chain. */
  lemma WellKnownNeverRaises(r: CheckResult)
    ensures Analyze(r.(wellKnown := SubCheck(true, true, r.wellKnown.err))).score
            <= Analyze(r.(wellKnown := SubCheck(true, false, r.wellKnown.err))).score
  {
    var known := r.(wellKnown := SubCheck(true, true, r.wellKnown.err));
    var unknown := r.(wellKnown := SubCheck(true, false, r.wellKnown.err));
    var edu := IsEducational(r);
    assert IsEducational(known) == edu && IsEducational(unknown) == edu;
    assert PatternScore(known, edu) == PatternScore(unknown, edu);
    assert DnsScore(known) == DnsScore(unknown);
    assert DomainScore(known, edu).0 == DomainScore(unknown, edu).0 - 40;
    if !known.pattern.checked {
      ScoredMonotone(known, unknown, edu, [], []);
    } else {
      var s := PatternFindings(known.pattern.value, edu);
      ScoredMonotone(known, unknown, edu, s.reasons, s.reasons);
    }
  }

  /** No raised signal: no pattern flag, no provider verdict, not
      educational, and, when the DNS lookups ran, MX records present but not
      exactly one, an SPF record without `-all` and a DMARC record without
      a rejecting or quarantining policy. */
  predicate Quiet(r: CheckResult) {
    && !(r.disposable.checked && r.disposable.value)
    && !(r.dns.checked && !r.dns.value.hasMX)
    && (!r.pattern.checked || r.pattern.value == NoPatternFlags)
    && !r.wellKnown.checked && !IsEducational(r)
    && (r.dns.checked ==>
          && |r.dns.value.mxRecords| != 1
          && r.dns.value.hasSPF && !Contains(r.dns.value.spfRecord, "-all")
          && r.dns.value.hasDMARC
          && !Contains(r.dns.value.dmarcRecord, "p=reject") && !Contains(r.dns.value.dmarcRecord, "p=quarantine"))
  }

  /** "No suspicious signals detected" is the whole verdict exactly when no
      signal was raised, and then the score is 0 and the level low. */
  lemma NoSignalsExactlyWhenQuiet(r: CheckResult)
    ensures Analyze(r).reasons == [ReasonNoSupiciousSignalsDetected] <==> Quiet(r)
    ensures Quiet(r) ==> Analyze(r).score == 0 && Analyze(r).level == Low
  {
    var no := ReasonNoSupiciousSignalsDetected;
    var edu := IsEducational(r);
    if r.disposable.checked && r.disposable.value {
      assert ReasonDisposableBlocked != no;
    } else if r.dns.checked && !r.dns.value.hasMX {
      assert ReasonDomainCannotReceiveEmail != no;
    } else {
      var reasons := if r.pattern.checked then PatternFindings(r.pattern.value, edu).reasons else [];
      var (domain, domainReasons) := DomainScore(r, edu);
      var (dns, dnsReasons) := DnsScore(r);
      var all := reasons + domainReasons + dnsReasons;
      assert no !in all by {
        assert no !in reasons;
        assert no !in domainReasons;
        assert no !in dnsReasons;
      }
      assert all == [] <==> Quiet(r);
      if r.pattern.checked {
        var s := PatternFindings(r.pattern.value, edu);
        if s.suspicion >= BlockThreshold(edu) {
          assert ReasonMultipleSuspiciousPatternsDetected != no;
        } else if s.random && !edu {
          assert ReasonRandomPatternOnWellKnownDomain != no && ReasonRandomPatternOnUnknownDomain != no;
        }
      }
    }
  }
}
