// The list downloaders: the disposable-domain text file, the Tranco top
// list (an ID request, then a CSV download) and the university JSON file.
// The HTTP client is a function from URL to response; JSON decoding is a
// parameter.

module Fetchers {
  import opened Wrappers
  import opened Text

  /** A response: status, the body bytes delivered, and the error that
      ended reading early, if any. */
  datatype Response = Response(status: int, body: string, readErr: Error)

  /** `client.Do` on a GET request: the response or the transport error. */
  type Client = string -> Result<Response, string>

  /** What `bufio.Scanner` with `ScanLines` yields from a body and the error
      it reports afterwards. A read error still lets the partial last line
      through; token-size limits are not modelled. */
  function Scan(r: Response): (lines: seq<string>) {
    Lines(r.body)
  }

  // ---------------------------------------------------------------------
  // Disposable domains
  // ---------------------------------------------------------------------

  const DisposableURL: string := "https://raw.githubusercontent.com/disposable/disposable-email-domains/master/domains.txt"

  /** `FetchDisposableDomains`: trimmed non-blank lines, in order; transport
      errors, a status other than 200, read errors and an empty list are
      errors. */
  function FetchDisposableDomains(client: Client): (r: Result<seq<string>, string>)
    ensures client(DisposableURL).Err? ==> r == Err("could not fetch disposable domains: " + client(DisposableURL).error)
    ensures client(DisposableURL).Ok? && client(DisposableURL).value.status != 200 ==>
              r == Err("unexpected status code: " + IntToString(client(DisposableURL).value.status))
    ensures r.Ok? ==> r.value != [] && r.value == TrimmedNonBlank(Lines(client(DisposableURL).value.body))
    ensures r.Ok? <==> client(DisposableURL).Ok? && client(DisposableURL).value.status == 200
                       && client(DisposableURL).value.readErr.None?
                       && TrimmedNonBlank(Lines(client(DisposableURL).value.body)) != []
  {
    match client(DisposableURL)
    case Err(e) => Err("could not fetch disposable domains: " + e)
    case Ok(resp) =>
      if resp.status != 200 then Err("unexpected status code: " + IntToString(resp.status))
      else
        var domains := TrimmedNonBlank(Scan(resp));
        if resp.readErr.Some? then Err("error reading response body: " + resp.readErr.value)
        else if |domains| == 0 then Err("no domains found in response")
        else Ok(domains)
  }

  /** Every returned domain is a non-blank line of the body with its
      surrounding white space removed, and every such line is returned. */
  lemma DisposableDomainsAreLines(client: Client, x: string)
    requires FetchDisposableDomains(client).Ok?
    ensures var lines := Lines(client(DisposableURL).value.body);
            x in FetchDisposableDomains(client).value <==>
              x != [] && exists i :: 0 <= i < |lines| && TrimSpace(lines[i]) == x
  {
  }

  /** A body with no non-blank line is refused. */
  lemma BlankBodyRefused(client: Client)
    requires client(DisposableURL).Ok?
    requires var resp := client(DisposableURL).value;
             resp.status == 200 && resp.readErr.None?
             && forall i :: 0 <= i < |Lines(resp.body)| ==> TrimSpace(Lines(resp.body)[i]) == []
    ensures FetchDisposableDomains(client) == Err("no domains found in response")
  {
    TrimmedNonBlankAllBlank(Lines(client(DisposableURL).value.body));
  }

  // ---------------------------------------------------------------------
  // Tranco
  // ---------------------------------------------------------------------

  /** The ID request for a day; the query encoder sorts the keys, and the
      `YYYY-MM-DD` date needs no escaping. */
  function ListIDURL(date: string): string {
    "https://tranco-list.eu/daily_list_id?date=" + date + "&subdomains=true"
  }

  /** The download request for a list ID, with the ID inserted verbatim. */
  function DownloadURL(id: string): (u: string)
    ensures |u| == |id| + 40
    ensures u[..32] == "https://tranco-list.eu/download/"
    ensures u[|u| - 8..] == "/1000000"
    ensures u[32..|u| - 8] == id
  {
    "https://tranco-list.eu/download/" + id + "/1000000"
  }

  /** `getTrancoListID`: the body verbatim, unless the request fails or the
      body is exactly one of the service's two failure texts. */
  function GetTrancoListID(client: Client, date: string): (r: Result<string, string>)
    ensures r.Ok? ==> client(ListIDURL(date)).Ok? && client(ListIDURL(date)).value.status == 200
                      && r.value == client(ListIDURL(date)).value.body
    ensures r.Ok? ==> r.value != "null" && r.value != "500 Internal Server Error"
    ensures client(ListIDURL(date)).Ok? && client(ListIDURL(date)).value.status != 200 ==>
              r == Err("unexpected status code: " + IntToString(client(ListIDURL(date)).value.status))
  {
    match client(ListIDURL(date))
    case Err(e) => Err("failed to fetch Tranco list ID: " + e)
    case Ok(resp) =>
      if resp.status != 200 then Err("unexpected status code: " + IntToString(resp.status))
      else if resp.readErr.Some? then Err("failed to read response body: " + resp.readErr.value)
      else if resp.body == "null" then Err("no Tranco list ID found for date: " + date)
      else if resp.body == "500 Internal Server Error" then Err("Tranco server error for date: " + date)
      else Ok(resp.body)
  }

  /** One CSV line `rank,domain`: the text after the first comma, unless
      the line is empty or has no comma or the comma is its last byte. The
      comparison is on byte offsets, as in the source. */
  function TrancoDomain(line: string): Option<string> {
    if line == "" then None
    else
      var idx := IndexOf(line, ',');
      if idx < 0 || ByteLen(line[..idx]) >= ByteLen(line) - 1 then None
      else Some(line[idx + 1..])
  }

  /** In runes: a line yields a domain iff it has a comma that is not its
      last rune, and the domain is everything after the first comma, commas
      included. */
  lemma TrancoDomainSpec(line: string)
    ensures TrancoDomain(line).Some? <==> ',' in line && IndexOf(line, ',') < |line| - 1
    ensures TrancoDomain(line).Some? ==>
              var idx := IndexOf(line, ',');
              && line == line[..idx] + "," + TrancoDomain(line).value
              && ',' !in line[..idx]
              && TrancoDomain(line).value != []
  {
    var idx := IndexOf(line, ',');
    if idx >= 0 {
      CommaSplit(line, idx);
    }
  }

  /** Around a comma at `idx`: the line is the text before it, the comma and
      the text after it, and the comma is the last byte exactly when it is
      the last rune. */
  lemma {:induction false} CommaSplit(line: string, idx: int)
    requires 0 <= idx < |line| && line[idx] == ','
    ensures line == line[..idx] + "," + line[idx + 1..]
    ensures ByteLen(line[..idx]) >= ByteLen(line) - 1 <==> idx == |line| - 1
  {
    var head, pre, tail := line[..idx], line[..idx + 1], line[idx + 1..];
    assert line == pre + tail;
    assert pre == head + [','];
    assert ByteLen([',']) == 1 by {
      assert [','][1..] == [];
    }
    ByteLenAppend(pre, tail);
    ByteLenAppend(head, [',']);
  }

  /** The domains of the lines that have one, in line order. */
  function TrancoDomains(lines: seq<string>): (r: seq<string>)
    ensures |r| <= |lines|
    decreases |lines|
  {
    if lines == [] then []
    else
      match TrancoDomain(lines[0])
      case Some(d) => [d] + TrancoDomains(lines[1..])
      case None => TrancoDomains(lines[1..])
  }

  lemma {:induction false} TrancoDomainsAppend(a: seq<string>, b: seq<string>)
    ensures TrancoDomains(a + b) == TrancoDomains(a) + TrancoDomains(b)
    decreases |a|
  {
    if a == [] {
      assert a + b == b;
    } else {
      assert (a + b)[0] == a[0];
      assert (a + b)[1..] == a[1..] + b;
      TrancoDomainsAppend(a[1..], b);
    }
  }

  /** `fetchTrancoList`: the domains of the downloaded CSV. A read error
      ends the scan without being reported, so the lines read so far are
      returned as a success. */
  function FetchTrancoList(client: Client, id: string): (r: Result<seq<string>, string>)
    ensures client(DownloadURL(id)).Err? ==> r == Err("failed to fetch Tranco list: " + client(DownloadURL(id)).error)
    ensures client(DownloadURL(id)).Ok? && client(DownloadURL(id)).value.status != 200 ==>
              r == Err("unexpected status code from Tranco: " + IntToString(client(DownloadURL(id)).value.status))
    ensures client(DownloadURL(id)).Ok? && client(DownloadURL(id)).value.status == 200 ==>
              r == Ok(TrancoDomains(Lines(client(DownloadURL(id)).value.body)))
  {
    match client(DownloadURL(id))
    case Err(e) => Err("failed to fetch Tranco list: " + e)
    case Ok(resp) =>
      if resp.status != 200 then Err("unexpected status code from Tranco: " + IntToString(resp.status))
      else Ok(TrancoDomains(Scan(resp)))
  }

  /** `GetTopList`: the list ID for the given day (yesterday, in UTC), then
      the list downloaded under that ID. */
  function GetTopList(client: Client, yesterday: string): (r: Result<seq<string>, string>)
    ensures GetTrancoListID(client, yesterday).Err? ==> r == Err(GetTrancoListID(client, yesterday).error)
    ensures GetTrancoListID(client, yesterday).Ok? ==> r == FetchTrancoList(client, GetTrancoListID(client, yesterday).value)
  {
    match GetTrancoListID(client, yesterday)
    case Err(e) => Err(e)
    case Ok(id) => FetchTrancoList(client, id)
  }

  /** `rank,domain` yields the domain, even when it holds further commas. */
  lemma TrancoDomainOfPair(rank: string, domain: string)
    requires ',' !in rank && domain != []
    ensures TrancoDomain(rank + "," + domain) == Some(domain)
  {
    var line := rank + "," + domain;
    assert line[|rank|] == ',';
    assert line[..|rank|] == rank;
    assert line[|rank| + 1..] == domain;
    TrancoDomainSpec(line);
  }

  /** A line whose only comma is its last rune is skipped. */
  lemma TrancoTrailingCommaSkipped(rank: string)
    requires ',' !in rank
    ensures TrancoDomain(rank + ",") == None
  {
    var line := rank + ",";
    assert line[|rank|] == ',';
    assert line[..|rank|] == rank;
    TrancoDomainSpec(line);
  }

  // ---------------------------------------------------------------------
  // Universities
  // ---------------------------------------------------------------------

  const EduURL: string := "https://raw.githubusercontent.com/Hipo/university-domains-list/master/world_universities_and_domains.json"

  /** A JSON decoder for the array of items, each reduced to its `domains`
      list; it sees the body and any read error, but not the status. */
  type DecodeItems = (string, Error) -> Result<seq<seq<string>>, string>

  /** The items' domain lists concatenated in item order. */
  function Concat(items: seq<seq<string>>): seq<string>
    decreases |items|
  {
    if items == [] then [] else items[0] + Concat(items[1..])
  }

  /** A domain is in the result iff some item lists it. */
  lemma {:induction false} ConcatMember(items: seq<seq<string>>, x: string)
    ensures x in Concat(items) <==> exists i :: 0 <= i < |items| && x in items[i]
    decreases |items|
  {
    if items != [] {
      ConcatMember(items[1..], x);
      if exists i :: 1 <= i < |items| && x in items[i] {
        var i :| 1 <= i < |items| && x in items[i];
        assert items[1..][i - 1] == items[i];
      }
    }
  }

  /** Concatenation keeps item order across a split of the item list. */
  lemma {:induction false} ConcatAppend(a: seq<seq<string>>, b: seq<seq<string>>)
    ensures Concat(a + b) == Concat(a) + Concat(b)
    decreases |a|
  {
    if a == [] {
      assert a + b == b;
    } else {
      assert (a + b)[0] == a[0];
      assert (a + b)[1..] == a[1..] + b;
      ConcatAppend(a[1..], b);
    }
  }

  /** `FetchEducationalDomains`: transport and decode errors as they are;
      otherwise every item's domains in order, with no status check. An
      empty result is a success (the source returns a nil list). */
  function FetchEducationalDomains(client: Client, decode: DecodeItems): (r: Result<seq<string>, string>)
    ensures client(EduURL).Err? ==> r == Err(client(EduURL).error)
    ensures client(EduURL).Ok? ==>
              var resp := client(EduURL).value;
              && (decode(resp.body, resp.readErr).Err? ==> r == Err(decode(resp.body, resp.readErr).error))
              && (decode(resp.body, resp.readErr).Ok? ==> r == Ok(Concat(decode(resp.body, resp.readErr).value)))
  {
    match client(EduURL)
    case Err(e) => Err(e)
    case Ok(resp) =>
      match decode(resp.body, resp.readErr)
      case Err(e) => Err(e)
      case Ok(items) =>
        var all := Concat(items);
        if |all| == 0 then Ok([]) else Ok(all)
  }

  /** The status is never looked at: two responses that differ only in
      status give the same result. */
  lemma EduStatusIgnored(client: Client, other: Client, decode: DecodeItems, status: int)
    requires client(EduURL).Ok?
    requires other(EduURL) == Ok(client(EduURL).value.(status := status))
    ensures FetchEducationalDomains(client, decode) == FetchEducationalDomains(other, decode)
  {
  }

  /** Items without domains give an empty, successful list. */
  lemma EduNoDomains(client: Client, decode: DecodeItems, items: seq<seq<string>>)
    requires client(EduURL).Ok?
    requires decode(client(EduURL).value.body, client(EduURL).value.readErr) == Ok(items)
    requires forall i :: 0 <= i < |items| ==> items[i] == []
    ensures FetchEducationalDomains(client, decode) == Ok([])
  {
    if Concat(items) != [] {
      ConcatMember(items, Concat(items)[0]);
    }
  }
}
