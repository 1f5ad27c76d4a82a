/** Interpretation of DNS-over-HTTPS answers: five lookups (A, NS, MX, TXT,
    and TXT at `_dmarc.`) folded into one `DNSValidation`. The lookup itself
    and the parked-name-server predicate are parameters. */
module Cloudflare {
  import opened Wrappers
  import opened Text
  import opened Model

  /** One answer record: owner name, RR type code, TTL and presentation data. */
  datatype Answer = Answer(name: string, rtype: int, ttl: int, data: string)

  /** A DNS-JSON response: the RCODE (`Status`) and the answer section. */
  datatype Response = Response(status: int, answers: seq<Answer>)

  /** Type codes from section 3.2.2 of RFC 1035. */
  const TypeA := 1
  const TypeNS := 2

  /** `Lookup(domain, type)`: a response, or the transport or decoding error. */
  type Lookup = (string, string) -> Result<Response, string>

  /** The data of the answers of type `t`, in answer order. */
  function DataOfType(answers: seq<Answer>, t: int): seq<string>
    decreases |answers|
  {
    if answers == [] then []
    else (if answers[0].rtype == t then [answers[0].data] else []) + DataOfType(answers[1..], t)
  }

  /** The answers of type `t` read in order: concatenated sections give
      concatenated data, and a string is there exactly when some answer of
      that type carries it. */
  lemma {:induction false} DataOfTypeSpec(xs: seq<Answer>, ys: seq<Answer>, t: int)
    ensures DataOfType(xs + ys, t) == DataOfType(xs, t) + DataOfType(ys, t)
    ensures forall d :: d in DataOfType(xs, t) <==> exists i :: 0 <= i < |xs| && xs[i].rtype == t && xs[i].data == d
    decreases |xs|
  {
    if xs == [] {
      assert xs + ys == ys;
    } else {
      assert (xs + ys)[1..] == xs[1..] + ys;
      DataOfTypeSpec(xs[1..], ys, t);
      var head := if xs[0].rtype == t then [xs[0].data] else [];
      assert DataOfType(xs + ys, t) == head + (DataOfType(xs[1..], t) + DataOfType(ys, t));
      forall d | d in DataOfType(xs, t) ensures exists i :: 0 <= i < |xs| && xs[i].rtype == t && xs[i].data == d {
        if !(xs[0].rtype == t && xs[0].data == d) {
          var i :| 0 <= i < |xs[1..]| && xs[1..][i].rtype == t && xs[1..][i].data == d;
          assert xs[i + 1] == xs[1..][i];
        }
      }
      forall d | exists i :: 0 <= i < |xs| && xs[i].rtype == t && xs[i].data == d ensures d in DataOfType(xs, t) {
        var i :| 0 <= i < |xs| && xs[i].rtype == t && xs[i].data == d;
        if i > 0 {
          assert xs[1..][i - 1] == xs[i];
        }
      }
    }
  }

  /** A usable response: status 0 and at least one answer. */
  predicate Usable(r: Response) {
    r.status == 0 && |r.answers| > 0
  }

  /** The A records of the A lookup. */
  function ARecords(r: Response): seq<string> {
    if Usable(r) then DataOfType(r.answers, TypeA) else []
  }

  /** The NS records of the NS lookup. */
  function NSRecords(r: Response): seq<string> {
    if Usable(r) then DataOfType(r.answers, TypeNS) else []
  }

  /** Whether some NS record names a parking name server. */
  predicate Parked(r: Response, isParkedNs: string -> bool) {
    exists d | d in NSRecords(r) :: isParkedNs(d)
  }

  /** One MX answer, "preference exchange" as in section 3.3.9 of RFC 1035:
      exactly two fields, the exchange as value and the preference as parsed
      by `strconv.Atoi`, whose result is kept even when it reports an error. */
  function ParseMX(a: Answer): Option<MXRecord> {
    var parts := Fields(a.data);
    if |parts| == 2 then Some(MXRecord(parts[1], Atoi(parts[0]).value, false)) else None
  }

  /** The MX records of the MX answers that parse, in answer order. */
  function MXRecords(answers: seq<Answer>): (r: seq<MXRecord>)
    ensures |r| <= |answers|
    decreases |answers|
  {
    if answers == [] then [] else MXOf(answers[0]) + MXRecords(answers[1..])
  }

  /** The record of one answer, if it parses. */
  function MXOf(a: Answer): seq<MXRecord> {
    match ParseMX(a) case Some(m) => [m] case None => []
  }

  /** The records of consecutive answers are concatenated in answer order. */
  lemma {:induction false} MXRecordsAppend(a: seq<Answer>, b: seq<Answer>)
    ensures MXRecords(a + b) == MXRecords(a) + MXRecords(b)
    decreases |a|
  {
    if a == [] {
      assert a + b == b;
    } else {
      assert (a + b)[1..] == a[1..] + b;
      MXRecordsAppend(a[1..], b);
      assert MXRecords(a + b) == MXOf(a[0]) + (MXRecords(a[1..]) + MXRecords(b));
    }
  }

  /** One answer gives its record when it parses, and nothing otherwise. */
  lemma MXRecordsOne(a: Answer)
    ensures MXRecords([a]) == if ParseMX(a).Some? then [ParseMX(a).value] else []
  {
    assert [a][1..] == [];
  }

  /** A record comes out exactly when some answer parses to it. */
  lemma {:induction false} MXRecordsMember(answers: seq<Answer>, m: MXRecord)
    ensures m in MXRecords(answers) <==> exists i :: 0 <= i < |answers| && ParseMX(answers[i]) == Some(m)
    decreases |answers|
  {
    if answers != [] {
      MXRecordsMember(answers[1..], m);
      if exists i :: 0 <= i < |answers[1..]| && ParseMX(answers[1..][i]) == Some(m) {
        var i :| 0 <= i < |answers[1..]| && ParseMX(answers[1..][i]) == Some(m);
        assert ParseMX(answers[i + 1]) == Some(m);
      }
      if exists i :: 0 <= i < |answers| && ParseMX(answers[i]) == Some(m) {
        var i :| 0 <= i < |answers| && ParseMX(answers[i]) == Some(m);
        if i > 0 {
          assert answers[1..][i - 1] == answers[i];
        }
      }
    }
  }

  /** The first answer whose data starts with `prefix`. */
  function FirstWithPrefix(answers: seq<Answer>, prefix: string): (r: Option<nat>)
    ensures r.Some? ==> r.value < |answers| && HasPrefix(answers[r.value].data, prefix)
    ensures r.Some? ==> forall i :: 0 <= i < r.value ==> !HasPrefix(answers[i].data, prefix)
    ensures r.None? ==> forall i :: 0 <= i < |answers| ==> !HasPrefix(answers[i].data, prefix)
    decreases |answers|
  {
    if answers == [] then None
    else if HasPrefix(answers[0].data, prefix) then Some(0)
    else
      match FirstWithPrefix(answers[1..], prefix)
      case Some(i) => Some(i + 1)
      case None => None
  }

  const SPFPrefix := "\"v=spf1"
  const DMARCPrefix := "\"v=DMARC1"

  /** The policy record selected from a TXT response: the first answer with
      the prefix, stripped of all surrounding quotes. Only a status-0
      response is read; an empty one selects nothing. */
  function TxtPolicy(r: Response, prefix: string): Option<string> {
    if r.status != 0 then None
    else
      match FirstWithPrefix(r.answers, prefix)
      case Some(i) => Some(TrimRune(r.answers[i].data, '"'))
      case None => None
  }

  /** The name the DMARC policy is published at, per section 6.1 of RFC 7489. */
  function DMARCName(domain: string): string {
    "_dmarc." + domain
  }

  /** The five lookups in the order the program starts them. */
  function Lookups(lookup: Lookup, domain: string): seq<Result<Response, string>> {
    [lookup(domain, "A"), lookup(domain, "NS"), lookup(domain, "MX"),
     lookup(domain, "TXT"), lookup(DMARCName(domain), "TXT")]
  }

  /** The first failed lookup in start order. */
  function FirstError(rs: seq<Result<Response, string>>): (e: Option<string>)
    ensures e.None? <==> forall i :: 0 <= i < |rs| ==> rs[i].Ok?
    ensures e.Some? ==> exists i :: 0 <= i < |rs| && rs[i] == Err(e.value)
    decreases |rs|
  {
    if rs == [] then None
    else if rs[0].Err? then Some(rs[0].error)
    else
      var e := FirstError(rs[1..]);
      assert e.Some? ==> exists i :: 0 <= i < |rs| && rs[i] == Err(e.value) by {
        if e.Some? {
          var i :| 0 <= i < |rs[1..]| && rs[1..][i] == Err(e.value);
          assert rs[i + 1] == rs[1..][i];
        }
      }
      e
  }

  /** `GetDNSValidation`: the validation record, or the error of a failed lookup. */
  function GetDNSValidation(lookup: Lookup, isParkedNs: string -> bool, domain: string): (r: Result<DNSValidation, string>)
    ensures r.Err? <==> exists i :: 0 <= i < 5 && Lookups(lookup, domain)[i].Err?
    ensures r.Err? ==> exists i :: 0 <= i < 5 && Lookups(lookup, domain)[i] == Err(r.error)
    ensures r.Ok? ==> r.value.domain == domain
  {
    var rs := Lookups(lookup, domain);
    match FirstError(rs)
    case Some(e) => Err(e)
    case None =>
      var a, ns, mx, txt, dmarc := rs[0].value, rs[1].value, rs[2].value, rs[3].value, rs[4].value;
      var spf := TxtPolicy(txt, SPFPrefix);
      var dm := TxtPolicy(dmarc, DMARCPrefix);
      Ok(DNSValidation(
        domain := domain,
        hasMX := Usable(mx),
        hasSPF := spf.Some?,
        hasDMARC := dm.Some?,
        isParked := Parked(ns, isParkedNs),
        aRecords := ARecords(a),
        nsRecords := NSRecords(ns),
        mxRecords := if Usable(mx) then MXRecords(mx.answers) else [],
        spfRecord := spf.GetOr(""),
        dmarcRecord := dm.GetOr("")))
  }

  // ---------------------------------------------------------------------
  // Properties
  // ---------------------------------------------------------------------

  /** When every lookup answers, each field reads its own response: records
      only from a status-0 response, the parked flag from the NS records, the
      MX flag from a non-empty status-0 answer, and the policies from the TXT
      answers at the domain and at `_dmarc.` under it. */
  lemma GetDNSValidationFields(lookup: Lookup, isParkedNs: string -> bool, domain: string)
    requires forall i :: 0 <= i < 5 ==> Lookups(lookup, domain)[i].Ok?
    ensures var rs := Lookups(lookup, domain);
            var v := GetDNSValidation(lookup, isParkedNs, domain).value;
            && (rs[0].value.status != 0 ==> v.aRecords == [])
            && (rs[1].value.status != 0 ==> v.nsRecords == [] && !v.isParked)
            && (forall d :: d in v.aRecords <==>
                  Usable(rs[0].value)
                  && (exists i :: 0 <= i < |rs[0].value.answers|
                        && rs[0].value.answers[i].rtype == TypeA && rs[0].value.answers[i].data == d))
            && (v.isParked <==> exists d | d in v.nsRecords :: isParkedNs(d))
            && (v.hasMX <==> rs[2].value.status == 0 && |rs[2].value.answers| > 0)
            && (v.hasSPF <==> TxtPolicy(lookup(domain, "TXT").value, SPFPrefix).Some?)
            && (v.hasDMARC <==> TxtPolicy(lookup("_dmarc." + domain, "TXT").value, DMARCPrefix).Some?)
  {
    var rs := Lookups(lookup, domain);
    DataOfTypeSpec(rs[0].value.answers, [], TypeA);
  }

  /** Answers none of which has exactly two fields give no MX records. */
  lemma {:induction false} MXRecordsNone(answers: seq<Answer>)
    requires forall i :: 0 <= i < |answers| ==> |Fields(answers[i].data)| != 2
    ensures MXRecords(answers) == []
    decreases |answers|
  {
    if answers != [] {
      assert forall i :: 0 <= i < |answers[1..]| ==> answers[1..][i] == answers[i + 1];
      MXRecordsNone(answers[1..]);
    }
  }

  /** A non-empty status-0 MX answer sets the MX flag even when no record parses. */
  lemma HasMXWithoutRecords(lookup: Lookup, isParkedNs: string -> bool, domain: string)
    requires forall i :: 0 <= i < 5 ==> Lookups(lookup, domain)[i].Ok?
    requires var mx := Lookups(lookup, domain)[2].value;
             Usable(mx) && forall i :: 0 <= i < |mx.answers| ==> |Fields(mx.answers[i].data)| != 2
    ensures GetDNSValidation(lookup, isParkedNs, domain).value.hasMX
    ensures GetDNSValidation(lookup, isParkedNs, domain).value.mxRecords == []
  {
    MXRecordsNone(Lookups(lookup, domain)[2].value.answers);
  }

  /** An MX record is produced exactly for two-field data, with the second
      field as the exchange. */
  lemma ParseMXSpec(a: Answer)
    ensures ParseMX(a).Some? <==> |Fields(a.data)| == 2
    ensures ParseMX(a).Some? ==> ParseMX(a).value.value == Fields(a.data)[1] && !ParseMX(a).value.disposable
  {
  }

  /** Printing a preference and an exchange as "preference exchange" and
      parsing it back gives them both. */
  lemma {:induction false} ParseMXRoundTrip(priority: int, exchange: string, name: string, ttl: int)
    requires MinInt64 <= priority <= MaxInt64
    requires exchange != [] && forall i :: 0 <= i < |exchange| ==> !IsSpace(exchange[i])
    ensures ParseMX(Answer(name, 15, ttl, IntToString(priority) + " " + exchange)) == Some(MXRecord(exchange, priority, false))
  {
    var p := IntToString(priority);
    assert forall i :: 0 <= i < |p| ==> !IsSpace(p[i]) by {
      if priority < 0 {
        assert forall i :: 1 <= i < |p| ==> p[i] == NatToString(-priority)[i - 1];
      }
    }
    FieldsByPair(p, ' ', exchange, IsSpace);
    assert p + " " + exchange == p + [' '] + exchange;
    AtoiIntToString(priority);
  }

  /** A preference that does not start like a number becomes 0. */
  lemma {:induction false} ParseMXBadPreference(preference: string, exchange: string, name: string, ttl: int)
    requires preference != [] && !IsAsciiDigit(preference[0]) && preference[0] != '-' && preference[0] != '+'
    requires forall i :: 0 <= i < |preference| ==> !IsSpace(preference[i])
    requires exchange != [] && forall i :: 0 <= i < |exchange| ==> !IsSpace(exchange[i])
    ensures ParseMX(Answer(name, 15, ttl, preference + " " + exchange)) == Some(MXRecord(exchange, 0, false))
  {
    FieldsByPair(preference, ' ', exchange, IsSpace);
    assert preference + " " + exchange == preference + [' '] + exchange;
    assert Atoi(preference).err.Some?;
  }

  /** The first matching answer wins: answers after it are never read. */
  lemma {:induction false} FirstMatchWins(xs: seq<Answer>, ys: seq<Answer>, prefix: string)
    requires FirstWithPrefix(xs, prefix).Some?
    ensures FirstWithPrefix(xs + ys, prefix) == FirstWithPrefix(xs, prefix)
    decreases |xs|
  {
    assert (xs + ys)[0] == xs[0];
    if !HasPrefix(xs[0].data, prefix) {
      assert (xs + ys)[1..] == xs[1..] + ys;
      FirstMatchWins(xs[1..], ys, prefix);
    }
  }

  /** A selected policy record has no quote at either end. */
  lemma TxtPolicyUnquoted(r: Response, prefix: string)
    requires TxtPolicy(r, prefix).Some?
    ensures var p := TxtPolicy(r, prefix).value; p == [] || (p[0] != '"' && p[|p| - 1] != '"')
  {
  }
}
