// The three list services (disposable, well-known, educational): each checks
// whether its table is stale, fetches the list if so, and replaces the
// table. The fetcher's answer is an input; `fetched` records whether the
// service asked for it.

module Refresh {
  import opened Wrappers
  import opened Repository

  /** What the database and the clock contribute to one refresh: the error
      of the staleness query, the time parser, the current time (ns), its
      RFC 3339 text, and the failing statement of the replace, if any. */
  datatype Env = Env(readFault: Error, parseTime: ParseTime, now: int, stamp: string, updateFault: Option<StepFault>)

  /** The store afterwards, the returned error, and whether the fetcher was called. */
  datatype Refreshed = Refreshed(store: Store, err: Error, fetched: bool)

  function StalenessOf(s: Store, t: Table, env: Env): Staleness {
    NeedsRefresh(s, RefreshKey(t), env.readFault, env.parseTime, env.now)
  }

  /** `UpdateDisposableList`: a staleness error is returned as it is; a
      fresh table is left alone; a fetch error is returned as it is; the
      fetched list, whatever it holds, replaces the table. */
  function UpdateDisposableList(s: Store, env: Env, fetch: Result<seq<string>, string>): (r: Refreshed)
    ensures var st := StalenessOf(s, DisposableDomains, env);
            && (st.err.Some? ==> r == Refreshed(s, st.err, false))
            && (st.err.None? && !st.needed ==> r == Refreshed(s, None, false))
            && (st.err.None? && st.needed ==> r.fetched)
    ensures fetch.Err? ==> r.store == s && (r.fetched ==> r.err == Some(fetch.error))
    ensures r.fetched && fetch.Ok? ==>
              var w := ReplaceDomains(s, DisposableDomains, fetch.value, env.stamp, env.updateFault);
              r.store == w.store && r.err == w.err
  {
    var st := StalenessOf(s, DisposableDomains, env);
    if st.err.Some? then Refreshed(s, st.err, false)
    else if !st.needed then Refreshed(s, None, false)
    else
      match fetch
      case Err(e) => Refreshed(s, Some(e), true)
      case Ok(domains) =>
        var w := ReplaceDomains(s, DisposableDomains, domains, env.stamp, env.updateFault);
        Refreshed(w.store, w.err, true)
  }

  /** `UpdateWellKnownList`: like the disposable refresh, but errors are
      wrapped with what failed, and an empty fetched list is refused. */
  function UpdateWellKnownList(s: Store, env: Env, fetch: Result<seq<string>, string>): (r: Refreshed)
    ensures var st := StalenessOf(s, TopDomains, env);
            && (st.err.Some? ==> r == Refreshed(s, Some("could not check if top domains need refresh: " + st.err.value), false))
            && (st.err.None? && !st.needed ==> r == Refreshed(s, None, false))
            && (st.err.None? && st.needed ==> r.fetched)
    ensures fetch.Err? ==> r.store == s && (r.fetched ==> r.err == Some("could not fetch top domains: " + fetch.error))
    ensures fetch == Ok([]) ==> r.store == s && (r.fetched ==> r.err == Some("top list is empty"))
    ensures r.fetched && fetch.Ok? && fetch.value != [] ==>
              var w := ReplaceDomains(s, TopDomains, fetch.value, env.stamp, env.updateFault);
              r.store == w.store
              && (w.err.None? ==> r.err.None?)
              && (w.err.Some? ==> r.err == Some("could not update top domains: " + w.err.value))
  {
    var st := StalenessOf(s, TopDomains, env);
    if st.err.Some? then Refreshed(s, Some("could not check if top domains need refresh: " + st.err.value), false)
    else if !st.needed then Refreshed(s, None, false)
    else
      match fetch
      case Err(e) => Refreshed(s, Some("could not fetch top domains: " + e), true)
      case Ok(domains) =>
        if |domains| == 0 then Refreshed(s, Some("top list is empty"), true)
        else
          var w := ReplaceDomains(s, TopDomains, domains, env.stamp, env.updateFault);
          match w.err
          case Some(e) => Refreshed(w.store, Some("could not update top domains: " + e), true)
          case None => Refreshed(w.store, None, true)
  }

  /** `UpdateEducationalDomains`: like the disposable refresh over the
      educational table, with no guard against an empty list. */
  function UpdateEducationalDomains(s: Store, env: Env, fetch: Result<seq<string>, string>): (r: Refreshed)
    ensures var st := StalenessOf(s, EduDomains, env);
            && (st.err.Some? ==> r == Refreshed(s, st.err, false))
            && (st.err.None? && !st.needed ==> r == Refreshed(s, None, false))
            && (st.err.None? && st.needed ==> r.fetched)
    ensures fetch.Err? ==> r.store == s && (r.fetched ==> r.err == Some(fetch.error))
    ensures r.fetched && fetch.Ok? ==>
              var w := ReplaceDomains(s, EduDomains, fetch.value, env.stamp, env.updateFault);
              r.store == w.store && r.err == w.err
  {
    var st := StalenessOf(s, EduDomains, env);
    if st.err.Some? then Refreshed(s, st.err, false)
    else if !st.needed then Refreshed(s, None, false)
    else
      match fetch
      case Err(e) => Refreshed(s, Some(e), true)
      case Ok(domains) =>
        var w := ReplaceDomains(s, EduDomains, domains, env.stamp, env.updateFault);
        Refreshed(w.store, w.err, true)
  }

  /** The `New` constructors: the service exists iff its first refresh
      returns no error; the well-known one wraps that error. */
  function New(t: Table, s: Store, env: Env, fetch: Result<seq<string>, string>): (r: Result<Store, string>)
    ensures r.Ok? <==> Update(t, s, env, fetch).err.None?
    ensures r.Ok? ==> r.value == Update(t, s, env, fetch).store
    ensures r.Err? && t != TopDomains ==> r.error == Update(t, s, env, fetch).err.value
    ensures r.Err? && t == TopDomains ==>
              r.error == "could not update well-known list: " + Update(t, s, env, fetch).err.value
  {
    var u := Update(t, s, env, fetch);
    match u.err
    case None => Ok(u.store)
    case Some(e) => if t == TopDomains then Err("could not update well-known list: " + e) else Err(e)
  }

  /** The refresh of a table's own service. */
  function Update(t: Table, s: Store, env: Env, fetch: Result<seq<string>, string>): Refreshed {
    match t
    case DisposableDomains => UpdateDisposableList(s, env, fetch)
    case TopDomains => UpdateWellKnownList(s, env, fetch)
    case EduDomains => UpdateEducationalDomains(s, env, fetch)
  }

  // ---------------------------------------------------------------------
  // Properties
  // ---------------------------------------------------------------------

  /** A table refreshed within the last twelve hours is not fetched and
      nothing changes, for every service. */
  lemma FreshTableUntouched(t: Table, s: Store, env: Env, fetch: Result<seq<string>, string>, last: int)
    requires env.readFault.None? && RefreshKey(t) in s.metadata
    requires env.parseTime(s.metadata[RefreshKey(t)]) == Ok(last)
    requires env.now - last <= RefreshInterval
    ensures Update(t, s, env, fetch) == Refreshed(s, None, false)
  {
  }

  /** A stale table whose fetch succeeds and whose replace commits holds
      exactly the non-empty fetched names afterwards, for every service;
      for the well-known list the fetched list must be non-empty. */
  lemma StaleTableReplaced(t: Table, s: Store, env: Env, domains: seq<string>)
    requires StalenessOf(s, t, env) == Staleness(true, None)
    requires Commits(domains, env.updateFault)
    requires t == TopDomains ==> domains != []
    ensures var r := Update(t, s, env, Ok(domains));
            r.err.None? && r.fetched && Domains(r.store, t) == NonEmpty(domains)
            && r.store.metadata == s.metadata[RefreshKey(t) := env.stamp]
  {
  }

  /** An empty top list is refused and keeps the old table, while an empty
      educational list empties the educational table. */
  lemma EmptyListContrast(s: Store, env: Env)
    requires StalenessOf(s, TopDomains, env) == Staleness(true, None)
    requires StalenessOf(s, EduDomains, env) == Staleness(true, None)
    requires env.updateFault.None?
    ensures UpdateWellKnownList(s, env, Ok([])) == Refreshed(s, Some("top list is empty"), true)
    ensures UpdateEducationalDomains(s, env, Ok([])).store.edu == {}
  {
    assert NonEmpty([]) == {};
  }

  /** An unparsable refresh time is reported as an error before any fetch,
      so the table is never refreshed while the stored time stays corrupt. */
  lemma CorruptStampBlocksRefresh(t: Table, s: Store, env: Env, fetch: Result<seq<string>, string>)
    requires env.readFault.None? && RefreshKey(t) in s.metadata
    requires env.parseTime(s.metadata[RefreshKey(t)]).Err?
    ensures var r := Update(t, s, env, fetch);
            r.err.Some? && !r.fetched && r.store == s
    ensures New(t, s, env, fetch).Err?
  {
  }
}
