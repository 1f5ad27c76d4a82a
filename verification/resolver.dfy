// The caching resolver in front of the DNS client: a fresh, decodable cache
// row answers at once; otherwise the lookup is fetched, registered as in
// flight while it runs, and a success is written back to the cache.

module Resolver {
  import opened Wrappers
  import opened Model
  import Repository

  /** Twenty-four hours, in nanoseconds. */
  const CacheLifetime: int := 24 * 3600 * 1000 * 1000 * 1000

  /** `json.Marshal` and `json.Unmarshal` of a validation, which are not part
      of this model: encoding may fail, decoding yields `None` on malformed
      data. */
  datatype Codec = Codec(encode: DNSValidation -> Result<string, string>, decode: string -> Option<DNSValidation>)

  /** Decoding what was encoded gives the value back. */
  ghost predicate RoundTrips(c: Codec) {
    forall v :: c.encode(v).Ok? ==> c.decode(c.encode(v).value) == Some(v)
  }

  /** The DNS client's `GetDNSValidation`, e.g. `Cloudflare.GetDNSValidation`
      over a lookup function. */
  type Fetch = string -> Result<DNSValidation, string>

  /** The cache table and the requests in flight with the result each will
      deliver to a caller that waits for it. */
  datatype State = State(store: Repository.Store, inflight: map<string, Result<DNSValidation, string>>)

  /** The driver errors of the cache read and of the cache write, if any. */
  datatype Faults = Faults(read: Error, upsert: Error)

  /** The answer, the state afterwards, and whether the client was called. */
  datatype Outcome = Outcome(result: Result<DNSValidation, string>, state: State, fetched: bool)

  /** The cached validation usable at `now`: the row must be readable,
      younger than 24 hours and decodable. A read error counts as no row. */
  function Cached(store: Repository.Store, codec: Codec, read: Error, domain: string, now: int): (v: Option<DNSValidation>)
    ensures v.Some? <==> read.None? && domain in store.dnsRecords
                         && now - store.dnsRecords[domain].createdAt < CacheLifetime
                         && codec.decode(store.dnsRecords[domain].data).Some?
    ensures v.Some? ==> v == codec.decode(store.dnsRecords[domain].data)
  {
    match Repository.GetDNSRecord(store, domain, read)
    case Ok(Some(rec)) =>
      if now - rec.createdAt < CacheLifetime then codec.decode(rec.data) else None
    case _ => None
  }

  /** The cache after a fetch: only a successful fetch whose encoding
      succeeds is written; a failed write is ignored. */
  function CacheAfter(store: Repository.Store, codec: Codec, upsert: Error, domain: string,
                      fetched: Result<DNSValidation, string>, now: int): (s: Repository.Store)
    ensures fetched.Err? ==> s == store
  {
    if fetched.Err? then store
    else
      match codec.encode(fetched.value)
      case Err(_) => store
      case Ok(data) => Repository.UpsertDNSRecord(store, domain, data, now, upsert).store
  }

  /** `GetDNSValidationResult`, one caller at a time. A caller that finds
      the domain in flight receives that request's result. */
  function GetDNSValidationResult(fetch: Fetch, codec: Codec, faults: Faults, now: int,
                                  st: State, domain: string): (o: Outcome)
    ensures o.state.inflight == st.inflight
    ensures o.fetched <==> Cached(st.store, codec, faults.read, domain, now).None? && domain !in st.inflight
    ensures o.fetched ==> o.result == fetch(domain)
    ensures !o.fetched ==> o.state == st
    ensures o.result.Err? ==> o.state.store == st.store
  {
    match Cached(st.store, codec, faults.read, domain, now)
    case Some(v) => Outcome(Ok(v), st, false)
    case None =>
      if domain in st.inflight then Outcome(st.inflight[domain], st, false)
      else
        var r := fetch(domain);
        var during := st.inflight[domain := r];
        var after := during - {domain};
        assert after == st.inflight;
        Outcome(r, State(CacheAfter(st.store, codec, faults.upsert, domain, r, now), after), true)
  }

  /** A fresh, decodable row answers without a fetch and changes nothing. */
  lemma FreshRowAnswers(fetch: Fetch, codec: Codec, faults: Faults, now: int, st: State, domain: string, v: DNSValidation)
    requires faults.read.None? && domain in st.store.dnsRecords
    requires now - st.store.dnsRecords[domain].createdAt < CacheLifetime
    requires codec.decode(st.store.dnsRecords[domain].data) == Some(v)
    ensures GetDNSValidationResult(fetch, codec, faults, now, st, domain) == Outcome(Ok(v), st, false)
  {
  }

  /** A missing, unreadable, expired or undecodable row falls through to a
      fetch when no request is in flight. */
  lemma UnusableRowFetches(fetch: Fetch, codec: Codec, faults: Faults, now: int, st: State, domain: string)
    requires domain !in st.inflight
    requires || faults.read.Some?
             || domain !in st.store.dnsRecords
             || now - st.store.dnsRecords[domain].createdAt >= CacheLifetime
             || codec.decode(st.store.dnsRecords[domain].data).None?
    ensures GetDNSValidationResult(fetch, codec, faults, now, st, domain).fetched
    ensures GetDNSValidationResult(fetch, codec, faults, now, st, domain).result == fetch(domain)
  {
  }

  /** A fetch error is returned as it is and nothing is cached, so the next
      call fetches again. */
  lemma ErrorNotCached(fetch: Fetch, codec: Codec, faults: Faults, now: int, later: int, st: State, domain: string)
    requires domain !in st.inflight && domain !in st.store.dnsRecords
    requires fetch(domain).Err?
    ensures var o := GetDNSValidationResult(fetch, codec, faults, now, st, domain);
            && o.result == fetch(domain)
            && o.state == st
            && GetDNSValidationResult(fetch, codec, faults, later, o.state, domain).fetched
  {
  }

  /** With a codec that round-trips and writes that succeed, a fetched
      validation is served from the cache for the next 24 hours, and
      fetched again once they have passed. */
  lemma FetchedThenCached(fetch: Fetch, codec: Codec, now: int, later: int, st: State, domain: string)
    requires RoundTrips(codec)
    requires domain !in st.inflight
    requires Cached(st.store, codec, None, domain, now).None?
    requires fetch(domain).Ok? && codec.encode(fetch(domain).value).Ok?
    ensures var o := GetDNSValidationResult(fetch, codec, Faults(None, None), now, st, domain);
            var again := GetDNSValidationResult(fetch, codec, Faults(None, None), later, o.state, domain);
            && o.fetched
            && (now <= later < now + CacheLifetime ==> again == Outcome(fetch(domain), o.state, false))
            && (later >= now + CacheLifetime ==> again.fetched)
  {
    var o := GetDNSValidationResult(fetch, codec, Faults(None, None), now, st, domain);
    var data := codec.encode(fetch(domain).value).value;
    assert o.state.store.dnsRecords[domain] == Repository.Row(data, now);
  }

  /** A failed cache write is ignored: the fetched answer is still returned
      and the cache is left as it was. */
  lemma UpsertFailureIgnored(fetch: Fetch, codec: Codec, read: Error, cause: string, now: int, st: State, domain: string)
    requires domain !in st.inflight
    requires Cached(st.store, codec, read, domain, now).None?
    ensures var o := GetDNSValidationResult(fetch, codec, Faults(read, Some(cause)), now, st, domain);
            o.result == fetch(domain) && o.state == st
  {
  }
}
