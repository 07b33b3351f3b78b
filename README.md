# URL shortener core, modelled in Dafny

This project models the short-code allocation and resolution engine of a
small Flask URL shortener (`app.py`). The service keeps one SQLite table,
`links`, whose rows hold a unique `code`, the destination `url`, a `clicks`
counter (default 0) and a `created_at` timestamp. Three operations use it:

- `shorten` reads a JSON body. It rejects a missing body or one without
  `url`. It strips the URL of surrounding whitespace and requires the
  case-sensitive prefix `http://` or `https://`. It then tries up to 10
  random 62-character-alphabet codes from `gen_code`. Each try is an INSERT
  that the UNIQUE constraint on `code` refuses on a collision. The result is
  the code with `short_url` = `BASE_URL.rstrip('/') + "/" + code`, or an
  exhaustion error.
- `redirect_code` looks a code up. It returns not-found, or the stored URL
  after adding exactly one click.
- `stats` returns the stored row of a code or not-found, and changes nothing.

Layout:

- `text.dfy` (module `Text`): Python's `str.strip()`, `str.startswith` and
  `str.rstrip('/')`, each specified by what it cuts off.
- `codes.dfy` (module `Codes`): the alphabet and `gen_code`. The random
  source is replaced by the picks it made.
- `links.dfy` (module `Links`): the table as a `map` from code to `Link`.
  Input validation, the retry loop, `shorten`, `redirect_code` and `stats`
  are functions from a table to the new table and a response. The lemmas
  state what each operation does to the table.
- `history.dfy` (module `History`): sequences of requests served in order.
  Its lemmas cover click counting, repeatable stats and unique codes.
- `service.dfy` (module `Service`): class `UrlShortener`, which owns the
  table as a field. `Shorten` validates the body and hands the URL to
  `Insert`, which runs the retry loop as a `while` loop. `Resolve` updates
  the table in place. All three are proved equal to the functions of
  `Links`. The candidates of the retry loop are built from the picks by
  `Attempts`. `Stats` has no `modifies` clause, so it cannot change
  the table.

Two edge cases of `app.py` that the model keeps as they are:

- A `url` field that is not a JSON string makes `.strip()` raise
  (app.py:391), so the service answers with a server error (500), not a
  validation error (400). The model returns `UrlNotString` for this case.
- A `CODE_LENGTH` of zero or less makes `gen_code` return the empty string
  (app.py:61), because `range(n)` is then empty. The model keeps this behaviour
  (`Codes.Width`) and does not fail at configuration time.

## Model

| member | source | states |
|---|---|---|
| Codes.AlphabetIsAlnum | app.py:60 | a character is in the code alphabet exactly when it is in `A-Z`, `a-z` or `0-9` |
| Codes.Width | app.py:61 | `gen_code(n)` yields `n` characters for positive `n` and none for `n <= 0` |
| Codes.GenCode | app.py:58-61 | the generated code has exactly `Width(n)` characters, each in `A-Z`, `a-z` or `0-9` |
| Codes.GenCodeOnto | app.py:58-61 | every alphanumeric string of that length is produced by some sequence of picks, so the well-formed candidates are exactly the outputs of `gen_code` |
| Text.Strip | app.py:391 | the stripped URL is a slice of the input with only whitespace removed on either side, and it neither starts nor ends with whitespace |
| Text.StripIdempotent | app.py:391 | stripping an already stripped URL changes nothing |
| Text.StripSurrounded | app.py:391 | `strip()` removes whitespace padding on either side of a URL and nothing of the URL itself |
| Text.TrimTrailing | app.py:422 | `rstrip('/')` keeps a prefix of the base URL, removes only `/` characters, and leaves no trailing `/` |
| Links.ValidateUrl | app.py:388-395 | a missing body or missing `url` is rejected; a non-string `url` fails; a string `url` is accepted exactly when its stripped form starts with `http://` or `https://`, and the accepted URL is that stripped form |
| Links.AcceptsUrl | app.py:388-395 | a body whose `url` strips to an http(s) URL is accepted with the stripped URL |
| Links.AcceptedUrlIsStripped | app.py:391-395 | an accepted URL has an http(s) scheme and no whitespace at either end |
| Links.RejectsMissingUrl | app.py:387-388 | a missing body, or a body without `url`, is rejected as invalid |
| Links.RejectsUrl | app.py:391-395 | a URL with nothing to strip whose first character is not `h` is rejected, whatever its case |
| Links.RejectedPayloads | tests/test_app.py:80-107 | no body, `{}`, `not-a-url`, `ftp://example.com` and the upper-case `HTTP://example.com` are all rejected |
| Links.AcceptedHttp | tests/test_app.py:128-138 | `http://x` is accepted unchanged |
| Links.AcceptedHttpsStripped | app.py:391-395 | ` https://x` followed by a newline is accepted as `https://x` |
| Links.FirstFree | app.py:402-414 | the retry loop inserts at the first candidate absent from the table, and finds none exactly when every candidate is taken |
| Links.FirstFreeUnique | app.py:402-414 | only one attempt can be the first free one |
| Links.Allocate | app.py:397-422 | the retry loop fails exactly when all 10 candidates are taken, and then the table is unchanged; on success the issued code was absent, the table gains exactly that key with the URL, 0 clicks and that round's clock reading, every other link is unchanged, and `short_url` is composed from the base URL and the code |
| Links.AllocateAt | app.py:402-414 | when attempt `i` is the first free one, the loop inserts that candidate with its clock reading |
| Links.Shorten | app.py:380-428 | a rejected body leaves the table unchanged and returns its error; an accepted one runs the retry loop with the stripped URL |
| Links.ShortUrlShape | app.py:422 | `short_url` is the base URL cut before its trailing slashes, then exactly one `/`, then the code |
| Links.ShortUrlRoundTrip | app.py:422 | the code is exactly what follows the last `/` of its short URL |
| Links.ShortUrlInjective | app.py:422 | distinct codes get distinct short URLs |
| Links.CodeHasNoSlash | app.py:58-61 | generated codes never contain `/` |
| Links.Resolve | app.py:432-455 | an unknown code gives not-found and no change; a known code gives the stored URL, gains exactly one click, and nothing else in the table changes |
| Links.Stats | app.py:459-472 | the row is present exactly when the code is, and it carries the code and the stored URL, clicks and creation time |
| Links.AllocatePreservesWellFormed | app.py:402-414 | the retry loop keeps every stored URL http(s) and every code of the `gen_code` shape when it inserts an http(s) URL under such candidates |
| Links.ShortenPreservesWellFormed | app.py:394-414 | after `shorten` every stored URL still has an http(s) scheme and every code still has the `gen_code` shape |
| Links.ResolvePreservesWellFormed | app.py:444-451 | `redirect_code` keeps that invariant |
| Links.ShortenEvolves | app.py:402-414 | `shorten` never removes a link and leaves every existing link (URL, clicks, creation time) exactly as it was |
| Links.ResolveEvolves | app.py:446-451 | `redirect_code` never removes a link nor changes a URL or creation time, and never decreases clicks |
| Links.EvolvesTransitive | app.py:47-50 | these guarantees compose across successive operations |
| Links.ResolveAfterShorten | tests/test_app.py:64-77 | resolving a freshly issued code returns the stripped input URL, and `stats` then shows that URL with exactly one click |
| History.Serve | app.py:379-472 | `stats` leaves the table unchanged; every request keeps links, URLs and creation times; a successful `shorten` adds exactly its fresh code and every other request adds none |
| History.RunEvolves | app.py:446-451 | over any sequence of requests, links are never deleted, URLs and creation times never change, and clicks never decrease |
| History.RunCountsClicks | app.py:446-451 | after any sequence of requests, a link's clicks equal its earlier clicks plus the number of resolutions of its code |
| History.StatsRepeatable | app.py:459-472 | two `stats` reads of an existing code with no resolution of it in between return the same row |
| History.RunIssuesFreshCodes | app.py:47 | codes issued over a run were all absent beforehand, and the final table holds exactly the old codes plus the issued ones |
| History.RunIssuesDistinctCodes | app.py:47 | no two successful `shorten` calls issue the same code |
| History.DistinctCons | app.py:47 | adding a code that is not yet in a duplicate-free list keeps it duplicate-free |
| History.ShortenIntoEmpty | app.py:402-414 | a `shorten` into an empty table stores its first candidate with the stripped URL and 0 clicks |
| History.ResolveThenStats | app.py:432-472 | following a freshly stored code once returns its URL, and `stats` then reports one click |
| History.ShortenResolveStats | tests/test_app.py:49-77 | shortening into an empty table, resolving, then reading stats gives the short URL, the stripped URL, and a row with one click |
| Service.Attempts | app.py:402-407 | each round's candidate is `gen_code(CODE_LENGTH)` of that round's picks, has the code shape, and is paired with that round's clock reading |
| Service.UrlShortener.constructor | app.py:42-55 | a fresh table is empty and satisfies the invariant |
| Service.UrlShortener.Shorten | app.py:380-428 | validates the body, then runs the retry loop; leaves exactly the table and outcome `Links.Shorten` specifies, and keeps the invariant |
| Service.UrlShortener.Insert | app.py:397-422 | the in-place retry loop over the candidates leaves exactly the table and outcome `Links.Allocate` specifies; given an http(s) URL and candidates of the code shape, it keeps the invariant |
| Service.UrlShortener.Resolve | app.py:432-455 | the in-place click update leaves exactly the table and URL `Links.Resolve` specifies; a returned URL always has an http(s) scheme |
| Service.UrlShortener.Stats | app.py:459-472 | returns the row `Links.Stats` specifies without modifying anything |

## Left out

- HTTP routing and status codes, `/health`, and the embedded HTML page are
  transport and presentation. Responses are modelled as outcome values.
- SQLite connections, `init_db`, `row_to_dict` and creating the database
  directory are not modelled. The table is an in-memory `map` with the
  UNIQUE and DEFAULT semantics of its schema, and it starts empty.
  Persistence across restarts is not modelled.
- `secrets.choice` is a foreign random source. The model receives the picks
  it made, one sequence per round of the retry loop. The model says nothing
  about uniformity or unpredictability.
- `datetime.now(...)` is a clock. The model receives one opaque string per
  round, and the format of `created_at` (ISO-8601 ending in `Z`) is not
  modelled.
- Reading `BASE_URL` and `CODE_LENGTH` from the environment, and logging,
  are not modelled. They are parameters of the class.
- JSON parsing is not modelled. A body that is not a JSON object (a list, a
  string or a number) is outside the model; the body is either absent or an
  object.
- Concurrency and atomicity across requests are not modelled. Each
  operation is one atomic step on the table.
- The click counter is an unbounded `nat`, so SQLite's 64-bit integer
  limit is not modelled.
