/**
 * Sequences of requests served one after another against one table: the
 * properties of the shortener that span several calls (click counting,
 * repeatable stats, unique codes).
 */
module History {
  import opened Text
  import opened Links

  datatype Request =
    | ShortenRequest(payload: Payload, attempts: seq<Attempt>)
    | ResolveRequest(code: string)
    | StatsRequest(code: string)

  datatype Response =
    | ShortenResponse(outcome: ShortenOutcome)
    | ResolveResponse(url: Option<string>)
    | StatsResponse(row: Option<Row>)

  /** A `shorten` request comes with a candidate for each of its attempts. */
  predicate Servable(req: Request) {
    req.ShortenRequest? ==> |req.attempts| >= MaxAttempts
  }

  predicate Drawable(reqs: seq<Request>) {
    forall i :: 0 <= i < |reqs| ==> Servable(reqs[i])
  }

  lemma DrawableTail(reqs: seq<Request>)
    requires Drawable(reqs) && reqs != []
    ensures Servable(reqs[0]) && Drawable(reqs[1..])
  {
    forall i | 0 <= i < |reqs| - 1
      ensures Servable(reqs[1..][i])
    {
      assert reqs[1..][i] == reqs[i + 1];
    }
  }

  /** `r` is a successful `shorten` response, which hands out a code. */
  predicate IssuedBy(r: Response) {
    r.ShortenResponse? && r.outcome.Shortened?
  }

  /** One request against the table. */
  function Serve(t: Table, baseUrl: string, req: Request): (s: Step<Response>)
    requires Servable(req)
    ensures req.StatsRequest? ==> s.table == t
    ensures Evolves(t, s.table)
    ensures IssuedBy(s.response) ==>
              s.response.outcome.code !in t && s.table.Keys == t.Keys + {s.response.outcome.code}
    ensures !IssuedBy(s.response) ==> s.table.Keys == t.Keys
  {
    match req
    case ShortenRequest(payload, attempts) =>
      ShortenEvolves(t, payload, baseUrl, attempts);
      var r := Shorten(t, payload, baseUrl, attempts);
      Step(r.table, ShortenResponse(r.response))
    case ResolveRequest(code) =>
      ResolveEvolves(t, code);
      var r := Resolve(t, code);
      Step(r.table, ResolveResponse(r.response))
    case StatsRequest(code) =>
      Step(t, StatsResponse(Stats(t, code)))
  }

  /** The requests served in order; one response per request. */
  function Run(t: Table, baseUrl: string, reqs: seq<Request>): (s: Step<seq<Response>>)
    requires Drawable(reqs)
    ensures |s.response| == |reqs|
    decreases reqs
  {
    if reqs == [] then Step(t, [])
    else
      DrawableTail(reqs);
      var first := Serve(t, baseUrl, reqs[0]);
      var rest := Run(first.table, baseUrl, reqs[1..]);
      Step(rest.table, [first.response] + rest.response)
  }

  /** How many of the requests resolve `code`. */
  function Resolutions(reqs: seq<Request>, code: string): nat {
    if reqs == [] then 0
    else (if reqs[0] == ResolveRequest(code) then 1 else 0) + Resolutions(reqs[1..], code)
  }

  /** The codes of the successful `shorten` responses, in order. */
  function Issued(resps: seq<Response>): seq<string> {
    if resps == [] then []
    else if IssuedBy(resps[0]) then [resps[0].outcome.code] + Issued(resps[1..])
    else Issued(resps[1..])
  }

  /** Over any run a link keeps its URL and creation time, and its clicks
      never decrease. */
  lemma {:induction false} RunEvolves(t: Table, baseUrl: string, reqs: seq<Request>)
    requires Drawable(reqs)
    ensures Evolves(t, Run(t, baseUrl, reqs).table)
    decreases reqs
  {
    if reqs != [] {
      DrawableTail(reqs);
      var first := Serve(t, baseUrl, reqs[0]);
      RunEvolves(first.table, baseUrl, reqs[1..]);
      EvolvesTransitive(t, first.table, Run(first.table, baseUrl, reqs[1..]).table);
    }
  }

  /** A link's clicks after a run are its clicks before plus the number of
      requests that resolved its code; nothing else about it changes. */
  lemma {:induction false} RunCountsClicks(t: Table, baseUrl: string, reqs: seq<Request>, code: string)
    requires Drawable(reqs)
    requires code in t
    ensures var t' := Run(t, baseUrl, reqs).table;
            code in t' && t'[code] == t[code].(clicks := t[code].clicks + Resolutions(reqs, code))
    decreases reqs
  {
    if reqs != [] {
      DrawableTail(reqs);
      var first := Serve(t, baseUrl, reqs[0]);
      assert first.table[code] == t[code].(clicks := t[code].clicks + (if reqs[0] == ResolveRequest(code) then 1 else 0));
      RunCountsClicks(first.table, baseUrl, reqs[1..], code);
    }
  }

  /** Two `stats` calls on an existing code with no resolution of that code
      in between report the same row. */
  lemma StatsRepeatable(t: Table, baseUrl: string, reqs: seq<Request>, code: string)
    requires Drawable(reqs)
    requires code in t
    requires Resolutions(reqs, code) == 0
    ensures Stats(Run(t, baseUrl, reqs).table, code) == Stats(t, code)
  {
    RunCountsClicks(t, baseUrl, reqs, code);
  }

  /** The codes a run issues were none of them in the table before, and the
      table afterwards holds exactly the old codes and the issued ones: no
      link is ever deleted, and only a successful `shorten` adds one. */
  lemma {:induction false} RunIssuesFreshCodes(t: Table, baseUrl: string, reqs: seq<Request>)
    requires Drawable(reqs)
    ensures var s := Run(t, baseUrl, reqs);
            var codes := Issued(s.response);
            && (forall c :: c in codes ==> c !in t)
            && forall c :: c in s.table <==> c in t || c in codes
    decreases reqs
  {
    if reqs != [] {
      DrawableTail(reqs);
      var first := Serve(t, baseUrl, reqs[0]);
      var rest := Run(first.table, baseUrl, reqs[1..]);
      RunIssuesFreshCodes(first.table, baseUrl, reqs[1..]);
      var s := Run(t, baseUrl, reqs);
      assert s.response[1..] == rest.response;
      var later := Issued(rest.response);
      if IssuedBy(first.response) {
        var c := first.response.outcome.code;
        assert Issued(s.response) == [c] + later;
      } else {
        assert Issued(s.response) == later;
      }
    }
  }

  /** No code occurs twice in `codes`. */
  predicate Distinct(codes: seq<string>) {
    forall i, j :: 0 <= i < j < |codes| ==> codes[i] != codes[j]
  }

  lemma DistinctCons(c: string, codes: seq<string>)
    requires Distinct(codes) && c !in codes
    ensures Distinct([c] + codes)
  {
    var all := [c] + codes;
    forall i, j | 0 <= i < j < |all|
      ensures all[i] != all[j]
    {
      assert all[j] == codes[j - 1];
      if i > 0 {
        assert all[i] == codes[i - 1];
      }
    }
  }

  /** No two successful `shorten` calls of a run hand out the same code. */
  lemma {:induction false} RunIssuesDistinctCodes(t: Table, baseUrl: string, reqs: seq<Request>)
    requires Drawable(reqs)
    ensures Distinct(Issued(Run(t, baseUrl, reqs).response))
    decreases reqs
  {
    if reqs != [] {
      DrawableTail(reqs);
      var first := Serve(t, baseUrl, reqs[0]);
      var rest := Run(first.table, baseUrl, reqs[1..]);
      RunIssuesDistinctCodes(first.table, baseUrl, reqs[1..]);
      var s := Run(t, baseUrl, reqs);
      assert s.response[1..] == rest.response;
      var later := Issued(rest.response);
      if IssuedBy(first.response) {
        RunIssuesFreshCodes(first.table, baseUrl, reqs[1..]);
        var c := first.response.outcome.code;
        assert c in first.table;
        assert Issued(s.response) == [c] + later;
        DistinctCons(c, later);
      } else {
        assert Issued(s.response) == later;
      }
    }
  }

  /** A `shorten` into an empty table inserts its first candidate. */
  lemma ShortenIntoEmpty(url: string, baseUrl: string, attempts: seq<Attempt>)
    requires HasHttpScheme(Strip(url))
    requires |attempts| >= MaxAttempts
    ensures var code := attempts[0].code;
            Serve(map[], baseUrl, ShortenRequest(Some(map["url" := JString(url)]), attempts)) ==
              Step(map[code := Link(Strip(url), 0, attempts[0].createdAt)],
                   ShortenResponse(Shortened(code, ShortUrl(baseUrl, code))))
  {
    AcceptsUrl(url);
    var t0: Table := map[];
    assert IsFirstFree(t0, attempts[..MaxAttempts], 0);
    AllocateAt(t0, Strip(url), baseUrl, attempts, 0);
  }

  /** Following a freshly stored code once, then reading its stats. */
  lemma ResolveThenStats(url: string, code: string, createdAt: string, baseUrl: string)
    ensures var t := map[code := Link(url, 0, createdAt)];
            Run(t, baseUrl, [ResolveRequest(code), StatsRequest(code)]).response ==
              [ResolveResponse(Some(url)), StatsResponse(Some(Row(code, url, 1, createdAt)))]
  {
    var t := map[code := Link(url, 0, createdAt)];
    var reqs := [ResolveRequest(code), StatsRequest(code)];
    var t2 := map[code := Link(url, 1, createdAt)];
    assert Serve(t, baseUrl, reqs[0]).table == t2;
    assert reqs[1..] == [StatsRequest(code)];
    assert Run(t2, baseUrl, reqs[1..]).response == [StatsResponse(Some(Row(code, url, 1, createdAt)))];
  }

  /** The flow the test suite walks through: shorten a URL into an empty
      table, follow the code once, then read its stats. */
  lemma ShortenResolveStats(url: string, baseUrl: string, attempts: seq<Attempt>)
    requires HasHttpScheme(Strip(url))
    requires |attempts| >= MaxAttempts
    ensures var code := attempts[0].code;
            var reqs := [ShortenRequest(Some(map["url" := JString(url)]), attempts),
                         ResolveRequest(code), StatsRequest(code)];
            Run(map[], baseUrl, reqs).response ==
              [ShortenResponse(Shortened(code, ShortUrl(baseUrl, code))),
               ResolveResponse(Some(Strip(url))),
               StatsResponse(Some(Row(code, Strip(url), 1, attempts[0].createdAt)))]
  {
    var code := attempts[0].code;
    var reqs := [ShortenRequest(Some(map["url" := JString(url)]), attempts),
                 ResolveRequest(code), StatsRequest(code)];
    ShortenIntoEmpty(url, baseUrl, attempts);
    ResolveThenStats(Strip(url), code, attempts[0].createdAt, baseUrl);
    assert reqs[1..] == [ResolveRequest(code), StatsRequest(code)];
  }
}
