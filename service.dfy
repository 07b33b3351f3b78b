/**
 * The shortener as the source runs it: one object owning the `links` table,
 * whose `Shorten` and `Resolve` change the table in place and whose `Stats`
 * only reads it. Each method is proved to do what the matching function of
 * module Links specifies.
 */
module Service {
  import opened Codes
  import opened Links

  /** The attempts the retry loop makes when `gen_code` picked `draws[i]`
      and the clock read `clock[i]` in round `i`. */
  function Attempts(n: int, draws: seq<seq<Pick>>, clock: seq<string>): (a: seq<Attempt>)
    requires |draws| == |clock|
    requires forall i :: 0 <= i < |draws| ==> |draws[i]| == Width(n)
    ensures |a| == |draws|
    ensures forall i :: 0 <= i < |a| ==> a[i] == Attempt(GenCode(n, draws[i]), clock[i])
    ensures forall i :: 0 <= i < |a| ==> IsCode(a[i].code, n)
  {
    seq(|draws|, i requires 0 <= i < |draws| => Attempt(GenCode(n, draws[i]), clock[i]))
  }

  class UrlShortener {
    /** `BASE_URL` and `CODE_LENGTH` of the configuration. */
    const baseUrl: string
    const codeLength: int

    /** The `links` table. */
    var links: Table

    /** Every stored code has the configured shape and every stored URL an
        http(s) scheme. */
    ghost predicate Valid()
      reads this
    {
      WellFormed(links, codeLength)
    }

    /** A shortener over a freshly created, empty table. */
    constructor (baseUrl: string, codeLength: int)
      ensures Valid()
      ensures this.baseUrl == baseUrl && this.codeLength == codeLength
      ensures links == map[]
    {
      this.baseUrl := baseUrl;
      this.codeLength := codeLength;
      links := map[];
    }

    /** `shorten`: `attempts[i]` is what round `i` of the retry loop draws,
        the code `gen_code(CODE_LENGTH)` returned and the clock reading. */
    method Shorten(payload: Payload, attempts: seq<Attempt>) returns (outcome: ShortenOutcome)
      requires Valid()
      requires |attempts| >= MaxAttempts
      requires forall i :: 0 <= i < |attempts| ==> IsCode(attempts[i].code, codeLength)
      modifies this
      ensures Valid()
      ensures Step(links, outcome) == Links.Shorten(old(links), payload, baseUrl, attempts)
    {
      match ValidateUrl(payload) {
        case Err(e) =>
          outcome := Failed(e);
        case Ok(url) =>
          AcceptedUrlIsStripped(payload);
          outcome := Insert(url, attempts);
      }
    }

    /** The retry loop of `shorten`: round `i` tries to INSERT the candidate
        `attempts[i]`, which the UNIQUE column on `code` refuses when that
        code is already stored. */
    method Insert(url: string, attempts: seq<Attempt>) returns (outcome: ShortenOutcome)
      requires Valid()
      requires HasHttpScheme(url)
      requires |attempts| >= MaxAttempts
      requires forall i :: 0 <= i < |attempts| ==> IsCode(attempts[i].code, codeLength)
      modifies this
      ensures Valid()
      ensures Step(links, outcome) == Allocate(old(links), url, baseUrl, attempts)
    {
      AllocatePreservesWellFormed(links, codeLength, url, baseUrl, attempts);
      var i := 0;
      while i < MaxAttempts
        invariant 0 <= i <= MaxAttempts
        invariant links == old(links)
        invariant forall j :: 0 <= j < i ==> attempts[j].code in links
      {
        var candidate := attempts[i].code;
        if candidate !in links {
          assert IsFirstFree(links, attempts[..MaxAttempts], i);
          AllocateAt(links, url, baseUrl, attempts, i);
          links := links[candidate := Link(url, 0, attempts[i].createdAt)];
          return Shortened(candidate, ShortUrl(baseUrl, candidate));
        }
        i := i + 1;
      }
      outcome := Failed(Exhausted);
    }

    /** `redirect_code`: look the code up; if found, count the click and
        hand back the stored URL. */
    method Resolve(code: string) returns (url: Option<string>)
      requires Valid()
      modifies this
      ensures Valid()
      ensures Step(links, url) == Links.Resolve(old(links), code)
      ensures url.Some? ==> HasHttpScheme(url.value)
    {
      ResolvePreservesWellFormed(links, codeLength, code);
      if code !in links {
        return None;
      }
      var link := links[code];
      links := links[code := link.(clicks := link.clicks + 1)];
      url := Some(link.url);
    }

    /** `stats`: a read of the table that changes nothing. */
    method Stats(code: string) returns (row: Option<Row>)
      ensures row == Links.Stats(links, code)
    {
      if code !in links {
        return None;
      }
      var link := links[code];
      row := Some(Row(code, link.url, link.clicks, link.createdAt));
    }
  }
}
