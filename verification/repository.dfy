// The SQLite repository: three domain tables, the DNS cache table and the
// metadata table, with the database reduced to finite sets and maps. A
// driver error of a statement is an input (`Error`, `None` when the
// statement succeeds); SQL itself is not part of this model.

module Repository {
  import opened Wrappers
  import opened Text
  import Parked

  // ---------------------------------------------------------------------
  // State
  // ---------------------------------------------------------------------

  /** A row of `dns_records`: the encoded validation and its write time (ns). */
  datatype Row = Row(data: string, createdAt: int)

  /** `emailchecker.DNSRecord`. */
  datatype DNSRecord = DNSRecord(domain: string, data: string, createdAt: int)

  /** The three domain tables. */
  datatype Table = DisposableDomains | TopDomains | EduDomains

  function TableName(t: Table): string {
    match t
    case DisposableDomains => "disposable_domains"
    case TopDomains => "top_domains"
    case EduDomains => "edu_domains"
  }

  /** The metadata key each table's refresh time is kept under. */
  function RefreshKey(t: Table): string {
    match t
    case DisposableDomains => "last_refresh_at"
    case TopDomains => "top_domains_refreshed_at"
    case EduDomains => "edu_domains_refreshed_at"
  }

  datatype Store = Store(
    disposable: set<string>,
    top: set<string>,
    edu: set<string>,
    dnsRecords: map<string, Row>,
    metadata: map<string, string>)

  function Domains(s: Store, t: Table): set<string> {
    match t
    case DisposableDomains => s.disposable
    case TopDomains => s.top
    case EduDomains => s.edu
  }

  /** The store with one table replaced and nothing else changed. */
  function WithDomains(s: Store, t: Table, ds: set<string>): (r: Store)
    ensures Domains(r, t) == ds
    ensures forall u :: u != t ==> Domains(r, u) == Domains(s, u)
    ensures r.dnsRecords == s.dnsRecords && r.metadata == s.metadata
  {
    match t
    case DisposableDomains => s.(disposable := ds)
    case TopDomains => s.(top := ds)
    case EduDomains => s.(edu := ds)
  }

  // ---------------------------------------------------------------------
  // Membership queries
  // ---------------------------------------------------------------------

  function QueryError(cause: string): string {
    "could not query domain: " + cause
  }

  /** An `EXISTS` query over the given names. */
  function Exists(ds: set<string>, names: set<string>, fault: Error): Result<bool, string> {
    match fault
    case Some(cause) => Err(QueryError(cause))
    case None => Ok(exists n :: n in names && n in ds)
  }

  /** `IsDisposable`: one trailing dot dropped, then the name or its
      registrable domain must be listed. Both query shapes of the source
      (one name when the two coincide, two otherwise) are the same test. */
  function IsDisposable(s: Store, etld: Parked.EtldPlusOne, domain: string, fault: Error): (r: Result<bool, string>)
    ensures fault.Some? ==> r == Err(QueryError(fault.value))
    ensures fault.None? ==> r.Ok?
    ensures var d := TrimSuffix(domain, ".");
            r.Ok? ==> (r.value <==> d in s.disposable || Parked.ExtractBaseDomain(etld, d) in s.disposable)
  {
    var d := TrimSuffix(domain, ".");
    var base := Parked.ExtractBaseDomain(etld, d);
    if d == base then
      var r := Exists(s.disposable, {d}, fault);
      assert r.Ok? ==> (r.value <==> d in s.disposable) by {
        if r.Ok? && d in s.disposable {
          assert d in {d};
        }
      }
      r
    else
      var r := Exists(s.disposable, {d, base}, fault);
      assert r.Ok? ==> (r.value <==> d in s.disposable || base in s.disposable) by {
        if r.Ok? && d in s.disposable {
          assert d in {d, base};
        }
        if r.Ok? && base in s.disposable {
          assert base in {d, base};
        }
      }
      r
  }

  /** `IsTop` and `IsEducationalDomain`: one trailing dot dropped, then an
      exact match, with no registrable-domain fallback. */
  function IsListed(ds: set<string>, domain: string, fault: Error): (r: Result<bool, string>)
    ensures fault.Some? ==> r == Err(QueryError(fault.value))
    ensures fault.None? ==> r == Ok(TrimSuffix(domain, ".") in ds)
  {
    var d := TrimSuffix(domain, ".");
    var r := Exists(ds, {d}, fault);
    assert r.Ok? ==> (r.value <==> d in ds) by {
      if r.Ok? && d in ds {
        assert d in {d};
      }
    }
    r
  }

  function IsTop(s: Store, domain: string, fault: Error): Result<bool, string> {
    IsListed(s.top, domain, fault)
  }

  function IsEducationalDomain(s: Store, domain: string, fault: Error): Result<bool, string> {
    IsListed(s.edu, domain, fault)
  }

  /** A subdomain of a listed disposable domain is disposable, while the same
      name is not well known when only its registrable domain is well known. */
  lemma BaseFallbackOnlyForDisposable(s: Store, etld: Parked.EtldPlusOne, domain: string, base: string)
    requires domain == [] || domain[|domain| - 1] != '.'
    requires etld(domain) == Ok(base)
    requires base in s.disposable && base in s.top && domain !in s.top
    ensures IsDisposable(s, etld, domain, None) == Ok(true)
    ensures IsTop(s, domain, None) == Ok(false)
  {
    Parked.NoDotUntrimmed(domain);
  }

  /** A trailing dot is ignored by all three lookups. */
  lemma LookupsIgnoreTrailingDot(s: Store, etld: Parked.EtldPlusOne, domain: string)
    requires domain == [] || domain[|domain| - 1] != '.'
    ensures IsDisposable(s, etld, domain + ".", None) == IsDisposable(s, etld, domain, None)
    ensures IsTop(s, domain + ".", None) == IsTop(s, domain, None)
    ensures IsEducationalDomain(s, domain + ".", None) == IsEducationalDomain(s, domain, None)
  {
    assert (domain + ".")[|domain|..] == ".";
    assert TrimSuffix(domain + ".", ".") == domain;
    Parked.NoDotUntrimmed(domain);
  }

  // ---------------------------------------------------------------------
  // DNS cache rows
  // ---------------------------------------------------------------------

  /** `GetDNSRecord`: the cached row as a record, `None` when absent. */
  function GetDNSRecord(s: Store, domain: string, fault: Error): (r: Result<Option<DNSRecord>, string>)
    ensures fault.Some? ==> r == Err("could not get DNS record for '" + domain + "': " + fault.value)
    ensures fault.None? ==> r.Ok? && (r.value.Some? <==> domain in s.dnsRecords)
    ensures r.Ok? && r.value.Some? ==>
              r.value.value.domain == domain
              && r.value.value.data == s.dnsRecords[domain].data
              && r.value.value.createdAt == s.dnsRecords[domain].createdAt
  {
    match fault
    case Some(cause) => Err("could not get DNS record for '" + domain + "': " + cause)
    case None =>
      if domain in s.dnsRecords then
        Ok(Some(DNSRecord(domain, s.dnsRecords[domain].data, s.dnsRecords[domain].createdAt)))
      else Ok(None)
  }

  /** The store after a write, and the write's error. */
  datatype Written = Written(store: Store, err: Error)

  /** `UpsertDNSRecord`: inserts or overwrites both data and time. */
  function UpsertDNSRecord(s: Store, domain: string, data: string, now: int, fault: Error): (r: Written)
    ensures fault.Some? ==> r == Written(s, Some("could not upsert DNS record for '" + domain + "': " + fault.value))
    ensures fault.None? ==> r.err.None?
  {
    match fault
    case Some(cause) => Written(s, Some("could not upsert DNS record for '" + domain + "': " + cause))
    case None => Written(s.(dnsRecords := s.dnsRecords[domain := Row(data, now)]), None)
  }

  /** A successful upsert is read back exactly, over an existing row or
      not, and no other row changes. */
  lemma UpsertThenGet(s: Store, domain: string, data: string, now: int, other: string)
    requires other != domain
    ensures var t := UpsertDNSRecord(s, domain, data, now, None).store;
            && GetDNSRecord(t, domain, None) == Ok(Some(DNSRecord(domain, data, now)))
            && GetDNSRecord(t, other, None) == GetDNSRecord(s, other, None)
            && t.disposable == s.disposable && t.top == s.top && t.edu == s.edu
            && t.metadata == s.metadata
  {
  }

  // ---------------------------------------------------------------------
  // Staleness
  // ---------------------------------------------------------------------

  /** Twelve hours, in nanoseconds. */
  const RefreshInterval: int := 12 * 3600 * 1000 * 1000 * 1000

  /** `time.Parse(time.RFC3339, _)` (section 5.6 of RFC 3339) is not part of
      this model and is a parameter giving nanoseconds or an error text. */
  type ParseTime = string -> Result<int, string>

  /** The answer of `needsRefresh` and its error. */
  datatype Staleness = Staleness(needed: bool, err: Error)

  /** `needsRefresh(key)` at time `now`: a missing key needs a refresh; a
      failed query reports no need together with the error; an unparsable
      time needs a refresh and also reports an error; otherwise a refresh is
      needed once strictly more than twelve hours have passed. */
  function NeedsRefresh(s: Store, key: string, fault: Error, parseTime: ParseTime, now: int): (r: Staleness)
    ensures fault.Some? ==> r == Staleness(false, Some("could not query last refresh time: " + fault.value))
    ensures fault.None? && key !in s.metadata ==> r == Staleness(true, None)
    ensures fault.None? && key in s.metadata && parseTime(s.metadata[key]).Err? ==>
              r.needed && r.err.Some?
    ensures fault.None? && key in s.metadata && parseTime(s.metadata[key]).Ok? ==>
              r.err.None? && (r.needed <==> now - parseTime(s.metadata[key]).value > RefreshInterval)
  {
    if fault.Some? then Staleness(false, Some("could not query last refresh time: " + fault.value))
    else if key !in s.metadata then Staleness(true, None)
    else
      var text := s.metadata[key];
      match parseTime(text)
      case Err(cause) => Staleness(true, Some("could not parse last refresh time '" + text + "': " + cause))
      case Ok(last) => Staleness(now - last > RefreshInterval, None)
  }

  // ---------------------------------------------------------------------
  // Replacing a table
  // ---------------------------------------------------------------------

  /** The statements of the replace transaction, in order. */
  datatype Step = Begin | CreateTable | Prepare | Insert(domain: string) | RenameOld | RenameNew | DropOld | Stamp | Commit

  /** The statement that fails, if any, and the driver's error. */
  datatype StepFault = StepFault(step: Step, cause: string)

  /** The error `updateDomains` returns when the given statement fails. */
  function StepError(t: Table, f: StepFault): string {
    var name := TableName(t);
    match f.step
    case Begin => "could not begin transaction: " + f.cause
    case CreateTable =>
      "could not create new table '" + name + "_new': could not create disposable_domains table: " + f.cause
    case Prepare => "could not prepare insert for new table: " + f.cause
    case Insert(d) => "could not insert domain '" + d + "' into new table: " + f.cause
    case RenameOld => "could not rename main table to old: " + f.cause
    case RenameNew => "could not rename new table to main: " + f.cause
    case DropOld => "could not drop old table: " + f.cause
    case Stamp => "could not update refresh timestamp: " + f.cause
    case Commit => f.cause
  }

  /** The distinct non-empty values in order of first occurrence: the rows
      the insert loop writes. */
  function Dedup(xs: seq<string>): (r: seq<string>)
    decreases |xs|
  {
    if xs == [] then []
    else
      var r := Dedup(xs[..|xs| - 1]);
      var x := xs[|xs| - 1];
      if x == "" || x in r then r else r + [x]
  }

  lemma {:induction false} DedupSpec(xs: seq<string>)
    ensures forall x :: x in Dedup(xs) <==> x in xs && x != ""
    ensures forall i, j :: 0 <= i < j < |Dedup(xs)| ==> Dedup(xs)[i] != Dedup(xs)[j]
    decreases |xs|
  {
    if xs != [] {
      var init := xs[..|xs| - 1];
      DedupSpec(init);
      assert xs == init + [xs[|xs| - 1]];
      forall x
        ensures x in xs <==> x in init || x == xs[|xs| - 1]
      {
        if x in xs {
          var i :| 0 <= i < |xs| && xs[i] == x;
          if i < |xs| - 1 {
            assert init[i] == x;
          }
        }
      }
    }
  }

  /** The non-empty values of a list, as a set. */
  function NonEmpty(xs: seq<string>): set<string> {
    set x | x in xs && x != ""
  }

  /** Whether the replace transaction commits: no statement fails, or the
      failing insert is of a value the loop never inserts. */
  predicate Commits(domains: seq<string>, fault: Option<StepFault>) {
    fault.None? || (fault.value.step.Insert? && fault.value.step.domain !in Dedup(domains))
  }

  /** The store after a committed replace: the table is exactly the set of
      non-empty values and the refresh key holds the stamp. */
  function Replaced(s: Store, t: Table, domains: seq<string>, stamp: string): (r: Store)
    ensures Domains(r, t) == NonEmpty(domains)
    ensures forall u :: u != t ==> Domains(r, u) == Domains(s, u)
    ensures r.dnsRecords == s.dnsRecords
    ensures r.metadata == s.metadata[RefreshKey(t) := stamp]
  {
    WithDomains(s, t, NonEmpty(domains)).(metadata := s.metadata[RefreshKey(t) := stamp])
  }

  /** `updateDomains` as one transaction: committed in full or not at all. */
  function ReplaceDomains(s: Store, t: Table, domains: seq<string>, stamp: string, fault: Option<StepFault>): (r: Written)
    ensures r.err.None? <==> Commits(domains, fault)
    ensures r.err.None? ==> r.store == Replaced(s, t, domains, stamp)
    ensures r.err.Some? ==> r.store == s && r.err == Some(StepError(t, fault.value))
  {
    if Commits(domains, fault) then Written(Replaced(s, t, domains, stamp), None)
    else Written(s, Some(StepError(t, fault.value)))
  }

  /** The statement sequence of `updateDomains`: the statements before the
      insert loop, the loop over the input skipping empty and already seen
      values, then the renames, the stamp and the commit. `inserted` lists
      the rows written to the new table. */
  method UpdateDomains(s: Store, t: Table, domains: seq<string>, stamp: string, fault: Option<StepFault>)
    returns (w: Written, inserted: seq<string>)
    ensures w == ReplaceDomains(s, t, domains, stamp, fault)
    ensures w.err.None? ==> inserted == Dedup(domains)
    ensures forall i, j :: 0 <= i < j < |inserted| ==> inserted[i] != inserted[j]
  {
    inserted := [];
    DedupSpec(domains);
    if fault.Some? && fault.value.step in {Begin, CreateTable, Prepare} {
      w := Written(s, Some(StepError(t, fault.value)));
      return;
    }
    var seen: set<string> := {};
    var i := 0;
    while i < |domains|
      invariant 0 <= i <= |domains|
      invariant inserted == Dedup(domains[..i])
      invariant forall x :: x in seen <==> x in inserted
      invariant fault.Some? && fault.value.step.Insert? ==> fault.value.step.domain !in inserted
      invariant forall a, b :: 0 <= a < b < |inserted| ==> inserted[a] != inserted[b]
    {
      var d := domains[i];
      assert domains[..i + 1] == domains[..i] + [d];
      assert domains[..i + 1][..i] == domains[..i];
      if d != "" && d !in seen {
        if fault.Some? && fault.value.step == Insert(d) {
          DedupSpec(domains[..i + 1]);
          assert d in Dedup(domains[..i + 1]);
          DedupPrefix(domains, i + 1);
          w := Written(s, Some(StepError(t, fault.value)));
          return;
        }
        seen := seen + {d};
        inserted := inserted + [d];
      }
      i := i + 1;
    }
    assert domains[..i] == domains;
    if fault.Some? && !fault.value.step.Insert? {
      w := Written(s, Some(StepError(t, fault.value)));
      return;
    }
    w := Written(Replaced(s, t, domains, stamp), None);
  }

  /** Every value the loop has inserted after a prefix is inserted for the
      whole list. */
  lemma {:induction false} DedupPrefix(xs: seq<string>, n: nat)
    requires n <= |xs|
    ensures forall x :: x in Dedup(xs[..n]) ==> x in Dedup(xs)
  {
    DedupSpec(xs[..n]);
    DedupSpec(xs);
    forall x | x in Dedup(xs[..n])
      ensures x in Dedup(xs)
    {
      var i :| 0 <= i < n && xs[..n][i] == x;
      assert xs[i] == x;
    }
  }

  /** Right after a committed replace, the table reads as fresh for the next
      twelve hours, provided the stamp parses back to the write time. */
  lemma FreshAfterReplace(s: Store, t: Table, domains: seq<string>, stamp: string, fault: Option<StepFault>,
                          parseTime: ParseTime, written: int, now: int)
    requires Commits(domains, fault)
    requires parseTime(stamp) == Ok(written)
    requires written <= now <= written + RefreshInterval
    ensures NeedsRefresh(ReplaceDomains(s, t, domains, stamp, fault).store, RefreshKey(t), None, parseTime, now)
              == Staleness(false, None)
  {
  }

  /** A failed replace leaves the table and its stamp as they were, so a
      table that was stale stays stale. */
  lemma FailedReplaceKeepsStaleness(s: Store, t: Table, domains: seq<string>, stamp: string, fault: Option<StepFault>,
                                    fault2: Error, parseTime: ParseTime, now: int)
    requires !Commits(domains, fault)
    ensures var after := ReplaceDomains(s, t, domains, stamp, fault).store;
            Domains(after, t) == Domains(s, t)
            && NeedsRefresh(after, RefreshKey(t), fault2, parseTime, now) == NeedsRefresh(s, RefreshKey(t), fault2, parseTime, now)
  {
  }
}
