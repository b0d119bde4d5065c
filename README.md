# kindle-api client core, modelled in Dafny

The model covers the part of the unofficial Kindle web-library client that
talks HTTP:

- **`Kindle`** (`src/kindle.ts`):
  - the default catalog query;
  - the `fromConfig` bootstrap, which parses the cookies, runs one catalog request to obtain a session id, then exchanges the device token for an adp session token;
  - the `baseRequest` pagination loop and `books()`;
  - the `deserializeCookies` parser.
- **`fetchBooks` and `toUrl`** (`src/fetch-books.ts`):
  - `fetchBooks` makes one catalog request and decodes it;
  - `toUrl` writes query options into the catalog URL's search parameters.
- **`DefaultHttpClient`** (`src/http-client.ts`):
  - the two session tokens, their setters and getters;
  - the headers every forwarded request carries;
  - the cookie serializer.

Module layout:

- `js.dfy` (`Js`): the JavaScript semantics the code relies on, in a small model:
  - `undefined` and primitive values;
  - plain objects as ordered records with unique keys;
  - object spread and property assignment;
  - thrown exceptions as `Result` errors.
- `strings.dfy` (`Strings`): `split`, `join` and `trim` for strings.
- `url-search-params.dfy` (`UrlSearchParams`): a URL as its base plus its list of search parameters, with the `set` and `delete` of the URLSearchParams interface (section 6.2 of the WHATWG URL Standard).
- `http-client.dfy` (`HttpClient`): `DefaultHttpClient` as a class.
  - The TLS-impersonating proxy it forwards to becomes two fields: `pending`, the responses the proxy will give, consumed one per request, and `sent`, the log of payloads it was asked to forward.
  - Every claim about I/O is about those two fields.
- `fetch-books.dfy` (`FetchBooks`): `fetchBooks` as a method and `toUrl` as a method with its `for` loop, each proved against a specification function (`DecodePage`, `UrlFor`).
- `kindle.dfy` (`Kindle`): the `Kindle` class.
  - `baseRequest`'s `do … while` loop is the method `Kindle.Pages`, proved against the function `Paginate`.
  - `fromConfig` is proved against the function `Bootstrap`.
  - The cookie parser is a function, with the properties of its fold and a round trip through `serializeCookies`.
- `pagination.dfy` (`Pagination`): closed forms of a pagination run over the server's responses:
  - how many pages are fetched;
  - which books are returned, and which session id;
  - which query each request carries;
  - when a single page is all there is.

## Model

| member | source | states |
|---|---|---|
| Kindle.Kindle.constructor | src/kindle.ts:84-93 | keeps the options and the client; `defaultBooks` is the pre-populated list, or empty when none is given |
| Kindle.Kindle.FromConfig | src/kindle.ts:95-121 | succeeds exactly when `Bootstrap` does, with the same error otherwise. On success it returns a fresh client holding the parsed cookies, the session id of the first catalog page and the adp token of the device reply. The client has forwarded exactly `Bootstrap`'s payloads, and the options carry the cookies in object form |
| Kindle.Bootstrap | src/kindle.ts:95-121 | no request is made when the cookie string does not parse, and the bootstrap then fails. A bootstrap that succeeds holds the parsed cookies and forwarded at least two requests (which two, exactly, is stated by `Pagination.BootstrapDeviceRequests`). It never consumes more responses than the proxy has |
| Pagination.DefaultRun | src/kindle.ts:104 | the bootstrap's catalog run on `DEFAULT_QUERY` makes exactly one request and consumes one response. It ends with `TransportError` when there is none, with the decoding error when the page does not decode, and otherwise with that page's books and session id |
| Pagination.BootstrapCatalog | src/kindle.ts:95-108 | `fromConfig` with cookies that parse forwards the `DEFAULT_QUERY` catalog URL first, with the cookie header and no session headers, and sends at most two payloads. With no response it fails with `TransportError` after that one request; when the first page does not decode it fails with that page's error after that one request |
| Pagination.BootstrapDeviceRequests | src/kindle.ts:104-107 | after a first page that decodes, exactly two payloads are forwarded: the `DEFAULT_QUERY` catalog URL without session headers, then the device-token URL with the page's session id and no adp token |
| Pagination.BootstrapDevice | src/kindle.ts:104-120 | after a first page that decodes: a missing second response gives `TransportError`, a non-JSON one `SyntaxError`. A JSON one gives the session made of the parsed cookies, the page's session id and books, and the reply's `deviceSessionToken`; the responses after the second are left over |
| Kindle.Kindle.DeviceToken | src/kindle.ts:123-134 | forwards one GET to the registration URL, whose `serialNumber` and `deviceType` are both the token. It returns the decoded reply, `SyntaxError` on a body that is not JSON, or a transport error when no response is left |
| Kindle.DecodeDevice | src/kindle.ts:133 | `JSON.parse` of the device reply fails with `SyntaxError` exactly when the body is not JSON; otherwise the result carries the body's `deviceSessionToken`, or `undefined` when it has none |
| Kindle.Kindle.BaseRequest | src/kindle.ts:136-178 | the result, the responses left and the forwarded log are those of `Paginate` run on `DEFAULT_QUERY` overridden by the caller's query |
| Kindle.Kindle.Pages | src/kindle.ts:151-177 | the loop's result, leftover responses and forwarded payloads equal `Paginate`'s run. Each payload is the catalog URL of one request's query, with the client's headers |
| Kindle.Kindle.Books | src/kindle.ts:180-187 | runs the same pagination as `baseRequest` with no version. On success it returns its books and updates only `options.sessionId`; on failure it leaves the options alone |
| Kindle.CookiePairIff | src/kindle.ts:192-194 | a `;`-segment fails to parse (the `trim` of an undefined value throws) exactly when it contains no `=` |
| Kindle.CookiePairOf | src/kindle.ts:192-194 | `key=value` with no `=` on either side parses to the trimmed key and trimmed value |
| Kindle.LaterDuplicateWins | src/kindle.ts:193-196 | when the fold succeeds, the last segment's key maps to its value whatever came before: a later duplicate wins |
| Kindle.CatalogOrder | src/kindle.ts:155 | the catalog URL of a query holds the parsed `BOOKS_URL` parameters in their own order, each kept, rewritten by the query or removed, followed by the query's other defined options in the query's own order |
| Kindle.CollectOkIff | src/kindle.ts:190-196 | the fold succeeds if and only if every segment contains `=` |
| Kindle.DeserializeCookies | src/kindle.ts:189-204 | parsing succeeds if and only if every `;`-segment contains `=`, and it fails only with `TypeError` (the `trim` of an undefined value) |
| Kindle.DeserializeFields | src/kindle.ts:189-204 | parsing succeeds if and only if every `;`-segment has a `=`. The result then has exactly the keys `atMain`, `sessionId`, `ubidMain` and `xMain`, read from the cookies `at-main`, `session-id`, `ubid-main` and `x-main`, with a missing cookie read as `undefined` |
| Kindle.RequiredFields | src/kindle.ts:198-203 | the cookie object has exactly the four required keys, each holding the value it was built with |
| Kindle.CookieRoundTrip | src/kindle.ts:189-204 | for cookie values without `;`, `=` or `%` and without surrounding white space, where `decodeURIComponent` leaves the text as it is, `deserializeCookies(serializeCookies(c))` gives back `c` |
| Kindle.CookieRoundTripFields | src/kindle.ts:189-204 | for any object holding exactly the four fields, in any key order (such as the order of `KindleRequiredCookies` at src/http-client.ts:135-140), with plain values, `deserializeCookies(serializeCookies(c))` gives back each field's value, in the parser's key order |
| Kindle.SerializeThenCollect | src/http-client.ts:124-132 | the serialized header of plain cookies splits back into one `kebab-key=value` pair per cookie, in order, and the fold maps each kebab-cased key to its value |
| Kindle.SerializeTrimmed | src/http-client.ts:124-132 | for plain cookies the final `trim` changes nothing: the header is the pairs joined with `"; "` |
| Kindle.Paginate | src/kindle.ts:155-172 | a run makes at least one request and never consumes more responses than there are; when a response is there, it consumes at least one |
| Pagination.PaginateRequests | src/kindle.ts:155-172 | the run's requests are, in order, the query and then the query with `paginationToken` set from page 0, page 1, and so on. There is one request per fetched page |
| Pagination.PaginateWalk | src/kindle.ts:155-172 | a run's outcome, page count and leftover responses depend only on the responses and on whether `fetchAllPages` is `true`, never on the other query fields |
| Pagination.WalkOkPages | src/kindle.ts:155-172 | a successful run of n requests decoded its first n responses, every page before the last carried a token, and exactly those n responses were consumed |
| Pagination.WalkOkBooks | src/kindle.ts:165 | a successful run returns the books of its pages concatenated, in page order |
| Pagination.WalkOkLast | src/kindle.ts:163-176 | a successful run returns the session id of its last page, and when fetching all pages that last page carried no token |
| Pagination.WalkErr | src/kindle.ts:155-172 | a failed run of n requests decoded n-1 pages that each carried a token. Its n-th request then found no response left (`TransportError`, nothing left over), or a response that fails to decode with the run's error |
| Pagination.WalkAll | src/kindle.ts:169-172 | with `fetchAllPages`, responses whose first n-1 pages each carry a token and whose n-th page carries none give exactly n pages and all their books |
| Pagination.SinglePage | src/kindle.ts:169-172 | unless `fetchAllPages` is `true`, exactly one request is made, whatever token the page carries |
| Pagination.GoesOnIff | src/kindle.ts:169-172 | the loop continues if and only if the page's token is defined and `fetchAllPages` is `true` |
| Pagination.QueryAtFields | src/kindle.ts:168 | the j-th request's query agrees with the original on every field but `paginationToken`, which holds page j-1's token |
| Pagination.DefaultQueryFields | src/kindle.ts:67-72 | `DEFAULT_QUERY` has exactly the fields `sortType`, `querySize`, `fetchAllPages` and `searchTerm`, with the values `acquisition_desc`, `50`, `false` and `""` |
| Pagination.FetchAllOnRequest | src/kindle.ts:146-149 | the merged query fetches all pages exactly when the caller's query sets `fetchAllPages: true` |
| FetchBooks.MapBooks | src/fetch-books.ts:26 | one book per list entry, in order, each tagged with the version |
| FetchBooks.DecodePage | src/fetch-books.ts:21-29 | a body that is not JSON gives `SyntaxError` and a body without `itemsList` gives `TypeError`. Otherwise the page's session id is the `session-id` set-cookie, its token is the body's, and its books map the list one to one |
| FetchBooks.FetchBooks | src/fetch-books.ts:6-30 | forwards exactly one GET for the URL with the client's headers and consumes one response. It returns that response's decoding, or a transport error when none is left |
| FetchBooks.ToUrl | src/fetch-books.ts:32-52 | the loop over the merged options leaves the search parameters `UrlFor` describes |
| FetchBooks.UrlFor | src/fetch-books.ts:32-52 | the loop changes the search parameters only: the URL's base is the base URL's |
| FetchBooks.ApplyOptionsOrder | src/fetch-books.ts:39-49 | with distinct parameter names, the loop leaves the base URL's parameters in their order (untouched, rewritten in place by a defined option, or removed by an `undefined` one), followed by one pair per newly defined option in the merged options' own order |
| FetchBooks.ToUrlOrder | src/fetch-books.ts:32-52 | the order above, for `toUrl` on a base URL whose parameter names are distinct and the spread of query and filter |
| FetchBooks.ApplyOptionsNamed | src/fetch-books.ts:39-49 | after the loop, each name's parameters depend only on that name's merged option: removed if `undefined`, one pair if defined, untouched if absent or internal |
| FetchBooks.ToUrlParams | src/fetch-books.ts:32-52 | parameter by parameter: the internal key is never written, an `undefined` option removes its parameter, a defined option appears exactly once with its string value, and a parameter no option names is kept |
| FetchBooks.NoInternalKey | src/fetch-books.ts:40-42 | `fetchAllPages` never reaches the URL |
| FetchBooks.FilterOverridesQuery | src/fetch-books.ts:34-37 | for a key the filter defines, the filter's value is the one in the URL |
| FetchBooks.ApplyOptionsIdempotent | src/fetch-books.ts:39-49 | running the loop again with the same options on its own output changes nothing |
| FetchBooks.ToUrlIdempotent | src/fetch-books.ts:32-52 | building the URL again from its own output with the same query and filter gives the same URL |
| HttpClient.RequestHeaders | src/http-client.ts:48-61 | the defaults (`Cookie`, `Accept-Language`, `User-Agent`) are overridden by the payload's headers. Each session header is present exactly when its token is truthy or the payload gave it, and a truthy token wins. No other header is added |
| HttpClient.DefaultHttpClient.constructor | src/http-client.ts:36-42 | the client holds the cookies and the proxy's responses, with no session tokens and nothing forwarded |
| HttpClient.DefaultHttpClient.AssembleHeaders | src/http-client.ts:48-61 | the headers built step by step are the layering `RequestHeaders` describes |
| HttpClient.DefaultHttpClient.Request | src/http-client.ts:44-93 | appends one forwarded GET (`chrome_112`, debug on) with the assembled headers to the log. It returns the proxy's next response and consumes it, or fails when none is left |
| HttpClient.DefaultHttpClient.UpdateSession | src/http-client.ts:104-114 | `getSessionId` then returns the new id, and `getAdpSessionId` what it returned before |
| HttpClient.DefaultHttpClient.UpdateAdpSession | src/http-client.ts:108-118 | `getAdpSessionId` then returns the new token, and `getSessionId` what it returned before |
| HttpClient.SerializeCookies | src/http-client.ts:124-132 | the header has no white space at either end |
| HttpClient.CookiePairs | src/http-client.ts:125-129 | one `kebab(key)=value` string per cookie, in the object's order |
| HttpClient.KebabNoUpper | src/http-client.ts:128 | no upper-case ASCII letter survives the key rewriting |
| HttpClient.KebabLower | src/http-client.ts:128 | a key without upper-case letters is left unchanged |
| HttpClient.KebabAppend | src/http-client.ts:128 | the rewriting distributes over concatenation |
| HttpClient.KebabNames | src/http-client.ts:128 | `atMain`, `sessionId`, `ubidMain` and `xMain` become `at-main`, `session-id`, `ubid-main` and `x-main` |
| Js.Spread | src/kindle.ts:146-149 | `{...a, ...b}` has the keys of both, and each reads `b`'s value where `b` has the key, even `undefined`, and `a`'s otherwise. The keys come in `a`'s order, each in its place in `a` (`Overridden`), followed by the keys only `b` has, in `b`'s order (`NewIn`) |
| Js.SetProp | src/kindle.ts:168 | the assigned property reads the new value and every other property reads as before. An existing key keeps its place: entry by entry, the result is the object with only that entry's value replaced. A new key is appended after the others |
| Js.SetPropTwice | src/kindle.ts:168 | assigning the same property twice is the same as assigning only the second value |
| UrlSearchParams.Set | src/fetch-books.ts:45 | `set` replaces the first pair of that name in place and removes the later ones, or appends the pair. The name then has exactly that one pair, and other names are untouched |
| UrlSearchParams.Delete | src/fetch-books.ts:47 | `delete` removes every pair of that name and leaves the others |
| UrlSearchParams.DeleteAppend | src/fetch-books.ts:47 | `delete` is a filter: it distributes over concatenation and keeps a single pair exactly when its name differs, so the kept pairs stay in their relative order |
| UrlSearchParams.SetReplaces | src/fetch-books.ts:45 | on a list whose names are distinct, `set` of a present name rewrites that pair's value in place and leaves every other pair where it was |
| UrlSearchParams.SearchParams.SetParam | src/fetch-books.ts:45 | `params.set` changes the object's pair list to `Set` of the old list |
| UrlSearchParams.SearchParams.DeleteParam | src/fetch-books.ts:47 | `params.delete` changes the object's pair list to `Delete` of the old list |
| UrlSearchParams.SetPresent | src/fetch-books.ts:45 | `set` of a name that already has exactly that one pair changes nothing |
| Strings.Split | src/kindle.ts:191-192 | the parts contain no separator and join back to the input |
| Strings.SplitJoin | src/http-client.ts:130 | splitting a join on its separator character gives back the parts, each after the first prefixed with the separator's padding |
| Strings.Trim | src/kindle.ts:194 | the result has no surrounding JavaScript white space, and already-trimmed text is unchanged |
| Strings.TrimSlice | src/kindle.ts:194 | `trim` removes exactly the white space at the two ends: the result is the slice of the input that a run of leading white space precedes and a run of trailing white space follows |

## Left out

- I/O:
  - the proxy (`fetch` of `${url}/api/forward` with the API key) is the `pending`/`sent` stub of `DefaultHttpClient`;
  - `JSON.stringify` of the payload and `response.json()` are not modelled;
  - a failed fetch is `TransportError`.
- Asynchrony: every `await` is sequential here, and no interleaving of concurrent calls is modelled.
- JSON: a body is either not JSON (`SyntaxError`) or the few fields the core reads. `parseJsonpResponse` and its regular expression are not part of this model.
- URL text: `URL` parsing, `toString()` serialization and percent-encoding are not modelled.
  - A URL is its base and its list of parameters.
  - `BOOKS_URL` is given already parsed.
  - `URLSearchParams({serialNumber, deviceType})` is the two-pair list.
- `decodeURIComponent` in `deserializeCookies` is the identity, because percent-decoding is not modelled.
- `KindleBook` is a list entry with its version tag. Its constructor, staying attached to the client, and the book-detail requests (`src/book.ts`) are not part of this model.
- Status codes: the core never inspects them. `AuthSessionError` and `UnexpectedResponseError` are never raised by the modelled code.
- `clientFactory` and `initializeSession`: `fromConfig` always builds a `DefaultHttpClient`, because the factory is foreign code.
- Kindle.Kindle.BaseRequest: the code calls `toUrl(query)` with a single argument, although `toUrl` takes `(baseUrl, query, filter)`, and `Kindle.BOOKS_PATH` does not exist. The model builds the catalog URL as `toUrl` on the parsed `BOOKS_URL` with an empty filter (`CatalogUrl`), and leaves out the `/${BOOKS_PATH}` suffix.
- Kindle.Kindle.Books: the code refreshes `options.sessionId` only. The `DefaultHttpClient`'s session header is not refreshed, and the model keeps it that way.
- Kindle.Kindle.BaseRequest: the query is spread as written. There is no renaming of `searchTerm` to the API's `query` parameter, so `searchTerm=` is part of every catalog URL.
- FetchBooks.ToUrlOrder: the order of the parameters is stated for base URLs whose parameter names are distinct, as `BOOKS_URL`'s are (`Kindle.BooksUrlUnique`). With a repeated name, `set` also drops that name's later pairs; FetchBooks.ToUrlParams states that name by name, but no lemma gives the whole list then.
- Kindle.DeserializeFields: a missing cookie reads as `undefined`, as in the code. No configuration error is raised for it.
- Session ids are `Option<string>`, because a missing `session-id` set-cookie or device token really is `undefined` at run time, although TypeScript types it `string`.
- Numbers are modelled as unbounded integers: fractions, doubles, `NaN` and the infinities cannot be expressed. The only number that reaches the code is `querySize`, an integer small enough that no rounding arises.
- JSON `null` is not modelled: a page's `paginationToken` is a string or absent. In the code a `null` token would pass the `!== undefined` test (src/kindle.ts:170) and keep the loop going, and the next `toUrl` would then throw on `null.toString()` (src/fetch-books.ts:45); the model cannot express that run.
- Property order: a record lists its keys in insertion order. JavaScript lists integer-like keys (`"0"`, `"1"`, …) first, in ascending order; the model does not reorder them. No key the client uses has that form.
- The test fixtures and the other source files (`book.ts`, `query-filter.ts`, `tls-client-api.ts`) are not part of this model.
