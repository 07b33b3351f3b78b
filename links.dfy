/**
 * The `links` table and the three operations on it (`shorten`,
 * `redirect_code`, `stats` in app.py), as functions from a table and a
 * request to the new table and the response. The class in module Service
 * performs the same operations in place and is proved against these.
 */
module Links {
  import opened Text
  import opened Codes

  datatype Option<T> = None | Some(value: T)

  datatype Result<T, E> = Ok(value: T) | Err(error: E)

  /** The retry budget of `shorten` (`max_attempts`). */
  const MaxAttempts: nat := 10

  /** A row of the `links` table without its key. `clicks` starts at the
      column default 0 and is never negative. */
  datatype Link = Link(url: string, clicks: nat, createdAt: string)

  /** The `links` table. The `code` column is UNIQUE and NOT NULL, so the
      table is a map from code to the rest of the row. */
  type Table = map<string, Link>

  /** A value in the JSON request body; only strings have a `strip` method. */
  datatype Json = JString(s: string) | JOther

  /** The parsed request body: `None` when it is missing or does not parse,
      otherwise a JSON object. */
  type Payload = Option<map<string, Json>>

  /** Why `shorten` fails: no usable URL (HTTP 400), a `url` field that is
      not a string (the `strip` call raises, HTTP 500), or no free code
      within the retry budget (HTTP 500). */
  datatype ShortenError = InvalidUrl | UrlNotString | Exhausted

  datatype ShortenOutcome = Shortened(code: string, shortUrl: string) | Failed(error: ShortenError)

  /** What one round of the retry loop draws from its environment: the
      candidate `gen_code` returned and the clock reading the insert uses. */
  datatype Attempt = Attempt(code: string, createdAt: string)

  /** The record `stats` returns. */
  datatype Row = Row(code: string, url: string, clicks: nat, createdAt: string)

  /** The table after an operation, with the operation's response. */
  datatype Step<R> = Step(table: Table, response: R)

  /** The case-sensitive scheme check of `shorten`. */
  predicate HasHttpScheme(url: string) {
    StartsWith(url, "http://") || StartsWith(url, "https://")
  }

  /** The stored URLs carry an http(s) scheme and every code has the shape
      `gen_code(n)` gives it. */
  predicate WellFormed(t: Table, n: int) {
    forall c :: c in t ==> IsCode(c, n) && HasHttpScheme(t[c].url)
  }

  /** Input checks of `shorten`: the body must be present and hold `url`; a
      string `url` is stripped and must then start with `http://` or
      `https://`. */
  function ValidateUrl(payload: Payload): (r: Result<string, ShortenError>)
    ensures payload.None? || "url" !in payload.value ==> r == Err(InvalidUrl)
    ensures payload.Some? && "url" in payload.value && payload.value["url"].JOther? ==> r == Err(UrlNotString)
    ensures payload.Some? && "url" in payload.value && payload.value["url"].JString? ==>
              var url := Strip(payload.value["url"].s);
              r == (if HasHttpScheme(url) then Ok(url) else Err(InvalidUrl))
  {
    if payload.None? || "url" !in payload.value then Err(InvalidUrl)
    else match payload.value["url"]
      case JOther => Err(UrlNotString)
      case JString(raw) =>
        var url := Strip(raw);
        if HasHttpScheme(url) then Ok(url) else Err(InvalidUrl)
  }

  /** The `short_url` of a code: the base URL with every trailing `/`
      removed, one `/`, then the code. */
  function ShortUrl(baseUrl: string, code: string): string {
    TrimTrailing(baseUrl, '/') + "/" + code
  }

  /** `i` is the first attempt whose candidate is absent from `t`. */
  predicate IsFirstFree(t: Table, attempts: seq<Attempt>, i: nat) {
    && i < |attempts|
    && attempts[i].code !in t
    && forall j :: 0 <= j < i ==> attempts[j].code in t
  }

  /** Which attempt of the retry loop inserts: the first candidate the
      UNIQUE constraint lets through, if any. */
  function FirstFree(t: Table, attempts: seq<Attempt>): (k: Option<nat>)
    ensures k.Some? ==> IsFirstFree(t, attempts, k.value)
    ensures k.None? <==> forall j :: 0 <= j < |attempts| ==> attempts[j].code in t
  {
    if attempts == [] then None
    else if attempts[0].code !in t then Some(0)
    else match FirstFree(t, attempts[1..])
      case None => None
      case Some(k) => Some(k + 1)
  }

  /** The retry loop of `shorten` for an accepted `url`: try the first
      `MaxAttempts` candidates in order and insert the first one absent from
      the table, with `clicks` 0; fail with `Exhausted` when all are taken. */
  function Allocate(t: Table, url: string, baseUrl: string, attempts: seq<Attempt>): (s: Step<ShortenOutcome>)
    requires |attempts| >= MaxAttempts
    ensures s.response.Failed? <==> forall i :: 0 <= i < MaxAttempts ==> attempts[i].code in t
    ensures s.response.Failed? ==> s == Step(t, Failed(Exhausted))
    ensures s.response.Shortened? ==>
              var code := s.response.code;
              && code !in t
              && s.table.Keys == t.Keys + {code}
              && (forall c :: c in t ==> s.table[c] == t[c])
              && s.table[code].url == url
              && s.table[code].clicks == 0
              && s.response.shortUrl == ShortUrl(baseUrl, code)
              && exists i: nat :: IsFirstFree(t, attempts[..MaxAttempts], i)
                             && attempts[i] == Attempt(code, s.table[code].createdAt)
  {
    var tried := attempts[..MaxAttempts];
    match FirstFree(t, tried)
    case None => Step(t, Failed(Exhausted))
    case Some(i) =>
      var a := attempts[i];
      assert IsFirstFree(t, tried, i) && a == tried[i];
      Step(t[a.code := Link(url, 0, a.createdAt)], Shortened(a.code, ShortUrl(baseUrl, a.code)))
  }

  /** Only one attempt can be the first free one. */
  lemma FirstFreeUnique(t: Table, attempts: seq<Attempt>, i: nat)
    requires IsFirstFree(t, attempts, i)
    ensures FirstFree(t, attempts) == Some(i)
  {
  }

  /** The retry loop inserts at the first free attempt `i`. */
  lemma AllocateAt(t: Table, url: string, baseUrl: string, attempts: seq<Attempt>, i: nat)
    requires |attempts| >= MaxAttempts
    requires IsFirstFree(t, attempts[..MaxAttempts], i)
    ensures var a := attempts[i];
            Allocate(t, url, baseUrl, attempts)
              == Step(t[a.code := Link(url, 0, a.createdAt)], Shortened(a.code, ShortUrl(baseUrl, a.code)))
  {
    FirstFreeUnique(t, attempts[..MaxAttempts], i);
  }

  /** `shorten`: a rejected payload leaves the table as it is; an accepted
      one goes through the retry loop with the stripped URL. */
  function Shorten(t: Table, payload: Payload, baseUrl: string, attempts: seq<Attempt>): (s: Step<ShortenOutcome>)
    requires |attempts| >= MaxAttempts
    ensures ValidateUrl(payload).Err? ==> s == Step(t, Failed(ValidateUrl(payload).error))
    ensures ValidateUrl(payload).Ok? ==> s == Allocate(t, ValidateUrl(payload).value, baseUrl, attempts)
  {
    match ValidateUrl(payload)
    case Err(e) => Step(t, Failed(e))
    case Ok(url) => Allocate(t, url, baseUrl, attempts)
  }

  /** `redirect_code`: an unknown code is not found and changes nothing; a
      known one yields its stored URL and gains exactly one click. */
  function Resolve(t: Table, code: string): (s: Step<Option<string>>)
    ensures code !in t ==> s == Step(t, None)
    ensures code in t ==>
              && s.response == Some(t[code].url)
              && s.table.Keys == t.Keys
              && s.table[code] == t[code].(clicks := t[code].clicks + 1)
              && forall c :: c in t && c != code ==> s.table[c] == t[c]
  {
    if code !in t then Step(t, None)
    else
      var link := t[code];
      Step(t[code := link.(clicks := link.clicks + 1)], Some(link.url))
  }

  /** `stats`: the stored row of a known code, nothing for an unknown one. */
  function Stats(t: Table, code: string): (r: Option<Row>)
    ensures r.None? <==> code !in t
    ensures r.Some? ==> r.value.code == code && t[code] == Link(r.value.url, r.value.clicks, r.value.createdAt)
  {
    if code in t then Some(Row(code, t[code].url, t[code].clicks, t[code].createdAt)) else None
  }

  /** `t'` can follow `t`: no link disappears, and a link's URL and creation
      time never change while its clicks never decrease. */
  predicate Evolves(t: Table, t': Table) {
    && t.Keys <= t'.Keys
    && forall c :: c in t ==> && t'[c].url == t[c].url
                              && t'[c].createdAt == t[c].createdAt
                              && t'[c].clicks >= t[c].clicks
  }

  /** The short URL is the base URL cut before its trailing slashes, then
      exactly one `/`, then the code. */
  lemma ShortUrlShape(baseUrl: string, code: string)
    ensures var u := ShortUrl(baseUrl, code);
            var k := |u| - |code| - 1;
            && 0 <= k <= |baseUrl|
            && u[..k] == baseUrl[..k]
            && (forall i :: k <= i < |baseUrl| ==> baseUrl[i] == '/')
            && (k > 0 ==> u[k - 1] != '/')
            && u[k] == '/'
            && u[k + 1..] == code
  {
  }

  /** The code is what follows the last `/` of its short URL. */
  lemma {:induction false} ShortUrlRoundTrip(baseUrl: string, code: string)
    requires '/' !in code
    ensures LastSegment(ShortUrl(baseUrl, code), '/') == code
  {
    var u := ShortUrl(baseUrl, code);
    var k := |u| - |code| - 1;
    assert u[k] == '/';
    assert u[k + 1..] == code;
  }

  lemma ShortUrlInjective(baseUrl: string, c1: string, c2: string)
    requires '/' !in c1 && '/' !in c2
    ensures ShortUrl(baseUrl, c1) == ShortUrl(baseUrl, c2) ==> c1 == c2
  {
    ShortUrlRoundTrip(baseUrl, c1);
    ShortUrlRoundTrip(baseUrl, c2);
  }

  /** No code of the generator's alphabet contains `/`. */
  lemma CodeHasNoSlash(c: string, n: int)
    requires IsCode(c, n)
    ensures '/' !in c
  {
  }

  /** The retry loop keeps the table well-formed when it stores an http(s)
      URL under candidates of the `gen_code(n)` shape. */
  lemma AllocatePreservesWellFormed(t: Table, n: int, url: string, baseUrl: string, attempts: seq<Attempt>)
    requires WellFormed(t, n)
    requires HasHttpScheme(url)
    requires |attempts| >= MaxAttempts
    requires forall i :: 0 <= i < |attempts| ==> IsCode(attempts[i].code, n)
    ensures WellFormed(Allocate(t, url, baseUrl, attempts).table, n)
  {
    var s := Allocate(t, url, baseUrl, attempts);
    if s.response.Shortened? {
      var i: nat :| IsFirstFree(t, attempts[..MaxAttempts], i)
                    && attempts[i] == Attempt(s.response.code, s.table[s.response.code].createdAt);
      assert IsCode(attempts[i].code, n);
    }
  }

  /** A successful `shorten` preserves the table's well-formedness when the
      candidates come from `gen_code(n)`, and a failed one leaves the table
      as it was. */
  lemma ShortenPreservesWellFormed(t: Table, n: int, payload: Payload, baseUrl: string, attempts: seq<Attempt>)
    requires WellFormed(t, n)
    requires |attempts| >= MaxAttempts
    requires forall i :: 0 <= i < |attempts| ==> IsCode(attempts[i].code, n)
    ensures WellFormed(Shorten(t, payload, baseUrl, attempts).table, n)
  {
    AcceptedUrlIsStripped(payload);
    if ValidateUrl(payload).Ok? {
      AllocatePreservesWellFormed(t, n, ValidateUrl(payload).value, baseUrl, attempts);
    }
  }

  lemma ResolvePreservesWellFormed(t: Table, n: int, code: string)
    requires WellFormed(t, n)
    ensures WellFormed(Resolve(t, code).table, n)
  {
  }

  /** `shorten` only adds a link: every existing link, clicks included, is
      kept exactly, so `Evolves` holds across it. */
  lemma ShortenEvolves(t: Table, payload: Payload, baseUrl: string, attempts: seq<Attempt>)
    requires |attempts| >= MaxAttempts
    ensures var t' := Shorten(t, payload, baseUrl, attempts).table;
            t.Keys <= t'.Keys && forall c :: c in t ==> t'[c] == t[c]
    ensures Evolves(t, Shorten(t, payload, baseUrl, attempts).table)
  {
  }

  /** `redirect_code` only bumps a click counter; `Evolves` holds across it. */
  lemma ResolveEvolves(t: Table, code: string)
    ensures Evolves(t, Resolve(t, code).table)
  {
  }

  lemma EvolvesTransitive(t0: Table, t1: Table, t2: Table)
    requires Evolves(t0, t1) && Evolves(t1, t2)
    ensures Evolves(t0, t2)
  {
  }

  /** Resolving the code `shorten` just issued yields the stripped input URL;
      afterwards `stats` reports that URL with exactly one click. */
  lemma ResolveAfterShorten(t: Table, payload: Payload, baseUrl: string, attempts: seq<Attempt>)
    requires |attempts| >= MaxAttempts
    requires Shorten(t, payload, baseUrl, attempts).response.Shortened?
    ensures var s := Shorten(t, payload, baseUrl, attempts);
            var code := s.response.code;
            var url := Strip(payload.value["url"].s);
            && payload.Some? && "url" in payload.value && payload.value["url"].JString?
            && Resolve(s.table, code).response == Some(url)
            && Stats(Resolve(s.table, code).table, code) == Some(Row(code, url, 1, s.table[code].createdAt))
  {
    var s := Shorten(t, payload, baseUrl, attempts);
    var v := ValidateUrl(payload);
    assert v.Ok?;
    assert payload.Some? && "url" in payload.value && payload.value["url"].JString?;
    assert s == Allocate(t, v.value, baseUrl, attempts);
    var code := s.response.code;
    assert code in s.table && s.table[code].url == v.value && s.table[code].clicks == 0;
    var r := Resolve(s.table, code);
    assert r.table[code] == s.table[code].(clicks := 1);
  }

  /** A body that is missing, or has no `url`, is rejected. */
  lemma RejectsMissingUrl(body: map<string, Json>)
    requires "url" !in body
    ensures ValidateUrl(None) == Err(InvalidUrl)
    ensures ValidateUrl(Some(body)) == Err(InvalidUrl)
  {
  }

  /** A URL that has nothing to strip and does not begin with `h` is
      rejected; in particular the scheme check is case-sensitive. */
  lemma RejectsUrl(raw: string)
    requires raw != [] && !IsSpace(raw[0]) && !IsSpace(raw[|raw| - 1])
    requires raw[0] != 'h'
    ensures ValidateUrl(Some(map["url" := JString(raw)])) == Err(InvalidUrl)
  {
    StripUnchanged(raw);
    assert raw[0] != "http://"[0] && raw[0] != "https://"[0];
  }

  /** The rejections the test suite exercises: no body, an empty object, a
      URL without a scheme, an `ftp://` URL and an upper-case `HTTP://`. */
  lemma RejectedPayloads(noScheme: string, ftp: string, upper: string)
    requires noScheme == "not-a-url"
    requires ftp == "ftp://example.com"
    requires upper == "HTTP://example.com"
    ensures ValidateUrl(None) == Err(InvalidUrl)
    ensures ValidateUrl(Some(map[])) == Err(InvalidUrl)
    ensures ValidateUrl(Some(map["url" := JString(noScheme)])) == Err(InvalidUrl)
    ensures ValidateUrl(Some(map["url" := JString(ftp)])) == Err(InvalidUrl)
    ensures ValidateUrl(Some(map["url" := JString(upper)])) == Err(InvalidUrl)
  {
    RejectsMissingUrl(map[]);
    RejectsUrl(noScheme);
    RejectsUrl(ftp);
    RejectsUrl(upper);
  }

  /** A body whose `url` strips to an http(s) URL is accepted, and the
      stripped URL is what gets stored. */
  lemma AcceptsUrl(raw: string)
    requires HasHttpScheme(Strip(raw))
    ensures ValidateUrl(Some(map["url" := JString(raw)])) == Ok(Strip(raw))
  {
  }

  /** An `http://` URL is accepted as it is. */
  lemma AcceptedHttp(url: string)
    requires url == "http://x"
    ensures ValidateUrl(Some(map["url" := JString(url)])) == Ok(url)
  {
    StripUnchanged(url);
    assert url == "http://" + "x";
    AcceptsUrl(url);
  }

  /** An accepted URL carries an http(s) scheme and has no whitespace left
      at either end, so it is stored exactly as it will be served. */
  lemma AcceptedUrlIsStripped(payload: Payload)
    ensures ValidateUrl(payload).Ok? ==>
              var url := ValidateUrl(payload).value;
              HasHttpScheme(url) && !IsSpace(url[0]) && !IsSpace(url[|url| - 1])
  {
    if ValidateUrl(payload).Ok? {
      var url := ValidateUrl(payload).value;
      assert url == Strip(payload.value["url"].s);
      assert HasHttpScheme(url);
      assert url != [];
    }
  }

  /** An `https://` URL is accepted with its surrounding whitespace removed. */
  lemma AcceptedHttpsStripped(pre: string, url: string, post: string)
    requires pre == " " && url == "https://x" && post == "\n"
    ensures ValidateUrl(Some(map["url" := JString(pre + url + post)])) == Ok(url)
  {
    assert IsSpace(pre[0]) && IsSpace(post[0]);
    assert !IsSpace(url[0]) && !IsSpace(url[|url| - 1]);
    StripSurrounded(pre, url, post);
    assert url == "https://" + "x";
    assert StartsWith(url, "https://");
    AcceptsUrl(pre + url + post);
  }
}
