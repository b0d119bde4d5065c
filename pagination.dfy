/**
 * What a run of the pagination loop does, read off the responses the
 * server gives: which catalog URLs it requests, which books it returns,
 * whose session id wins, when it stops and how it fails.
 */
module Pagination {
  import opened Js
  import opened UrlSearchParams
  import opened HttpClient
  import opened FetchBooks
  import opened Kindle

  /** A response decoded as a catalog page. */
  function Decoded(response: Response, version: Option<string>): Result<Page>
  {
    DecodePage(response.cookies, response.body, version)
  }

  /** The token page `j` hands on; nothing when there is no such page. */
  function TokenAt(server: seq<Response>, version: Option<string>, j: nat): Option<string>
  {
    if j < |server| && Decoded(server[j], version).Ok? then Decoded(server[j], version).value.paginationToken else None
  }

  /** The first `n` responses all decode to pages. */
  predicate AllDecode(server: seq<Response>, version: Option<string>, n: nat): (ok: bool)
    ensures ok ==> n <= |server|
    decreases n
  {
    n == 0 || (server != [] && Decoded(server[0], version).Ok? && AllDecode(server[1..], version, n - 1))
  }

  /** The first `n` responses all decode to pages that carry a token. */
  predicate HaveTokens(server: seq<Response>, version: Option<string>, n: nat): (ok: bool)
    ensures ok ==> AllDecode(server, version, n)
    decreases n
  {
    n == 0 || (server != [] && Decoded(server[0], version).Ok? && Decoded(server[0], version).value.paginationToken.Some?
               && HaveTokens(server[1..], version, n - 1))
  }

  /** The books of the first `n` pages, in order. */
  function BooksOf(server: seq<Response>, version: Option<string>, n: nat): seq<Book>
    requires AllDecode(server, version, n)
    decreases n
  {
    if n == 0 then [] else Decoded(server[0], version).value.books + BooksOf(server[1..], version, n - 1)
  }

  /** The `n`-th page, the last of the first `n`. */
  function LastPage(server: seq<Response>, version: Option<string>, n: nat): Page
    requires 1 <= n && AllDecode(server, version, n)
    decreases n
  {
    if n == 1 then Decoded(server[0], version).value else LastPage(server[1..], version, n - 1)
  }

  /** Read by index: page `j` of the first `n` decodes, and `LastPage` is page `n - 1`. */
  lemma {:induction false} AllDecodeIndex(server: seq<Response>, version: Option<string>, n: nat)
    requires AllDecode(server, version, n)
    ensures n <= |server|
    ensures forall j :: 0 <= j < n ==> Decoded(server[j], version).Ok?
    ensures n >= 1 ==> LastPage(server, version, n) == Decoded(server[n - 1], version).value
    decreases n
  {
    if n > 0 {
      AllDecodeIndex(server[1..], version, n - 1);
      assert forall j :: 1 <= j < n ==> server[1..][j - 1] == server[j];
    }
  }

  /** Read by index: page `j` of the first `n` has a token. */
  lemma {:induction false} HaveTokensIndex(server: seq<Response>, version: Option<string>, n: nat)
    requires HaveTokens(server, version, n)
    ensures AllDecode(server, version, n)
    ensures forall j :: 0 <= j < n ==> TokenAt(server, version, j).Some?
    decreases n
  {
    if n > 0 {
      HaveTokensIndex(server[1..], version, n - 1);
      assert forall j :: 1 <= j < n ==> TokenAt(server[1..], version, j - 1) == TokenAt(server, version, j);
    }
  }

  /** The query the loop holds for its `j`-th request: the first query, with page `j - 1`'s token from the second on. */
  function QueryAt(q: Record, server: seq<Response>, version: Option<string>, j: nat): Record
  {
    if j == 0 then q else SetProp(q, PaginationKey, OfOption(TokenAt(server, version, j - 1)))
  }

  /** Whether a run that holds query `q` goes on after a page with token `token`. */
  predicate GoesOn(q: Record, token: Option<string>)
  {
    var q' := SetProp(q, PaginationKey, OfOption(token));
    Get(q', PaginationKey) != Undefined && Get(q', InternalKey) == Bool(true)
  }

  /** The loop goes on exactly when the page had a token and `fetchAllPages` is `true`. */
  lemma GoesOnIff(q: Record, token: Option<string>)
    ensures GoesOn(q, token) <==> token.Some? && Get(q, InternalKey) == Bool(true)
  {
    assert PaginationKey != InternalKey;
  }

  /** Requests of a run after the first see the first query with only the token replaced. */
  lemma QueryAtFields(q: Record, server: seq<Response>, version: Option<string>, j: nat, k: string)
    ensures k != PaginationKey ==> Get(QueryAt(q, server, version, j), k) == Get(q, k)
    ensures j > 0 ==> Get(QueryAt(q, server, version, j), PaginationKey) == OfOption(TokenAt(server, version, j - 1))
  {
  }

  /** Dropping the first response shifts every query by one, since a token replaces the one before it. */
  lemma QueryShift(q: Record, server: seq<Response>, version: Option<string>, j: nat)
    requires server != []
    ensures QueryAt(SetProp(q, PaginationKey, OfOption(TokenAt(server, version, 0))), server[1..], version, j)
      == QueryAt(q, server, version, j + 1)
  {
    if j > 0 {
      assert TokenAt(server[1..], version, j - 1) == TokenAt(server, version, j);
      SetPropTwice(q, PaginationKey, OfOption(TokenAt(server, version, 0)), OfOption(TokenAt(server, version, j)));
    }
  }

  /** The first `n` requests of a run from query `q`: request `j` fetches `QueryAt(q, …, j)`. */
  function Requests(q: Record, server: seq<Response>, version: Option<string>, n: nat): (r: seq<Request>)
    ensures |r| == n
  {
    seq(n, j requires 0 <= j < n => Request(QueryAt(q, server, version, j)))
  }

  /** A run with the query left out: its outcome, how many requests it made, and the responses left over. */
  datatype Walked = Walked(outcome: Result<Fetched>, count: nat, rest: seq<Response>)

  /**
   * The loop as the responses drive it, for a query whose `fetchAllPages`
   * is `true` exactly when `all` is: go on after a page that has a token
   * only when `all` holds.
   */
  function Walk(all: bool, server: seq<Response>, version: Option<string>, books: seq<Book>): (w: Walked)
    ensures 1 <= w.count <= |server| + 1
    decreases |server|
  {
    if server == [] then Walked(Err(TransportError), 1, [])
    else match Decoded(server[0], version)
      case Err(e) => Walked(Err(e), 1, server[1..])
      case Ok(page) =>
        if all && page.paginationToken.Some? then
          var w := Walk(all, server[1..], version, books + page.books);
          Walked(w.outcome, w.count + 1, w.rest)
        else Walked(Ok(Fetched(books + page.books, page.sessionId)), 1, server[1..])
  }

  /** The query matters to what a run returns only through its `fetchAllPages` switch. */
  lemma {:induction false} PaginateWalk(q: Record, server: seq<Response>, version: Option<string>, books: seq<Book>, requests: seq<Request>)
    ensures var run := Paginate(q, server, version, books, requests);
      var w := Walk(Get(q, InternalKey) == Bool(true), server, version, books);
      run.outcome == w.outcome && run.rest == w.rest && |run.requests| == |requests| + w.count
    decreases |server|
  {
    if server != [] && Decoded(server[0], version).Ok? {
      var page := Decoded(server[0], version).value;
      GoesOnIff(q, page.paginationToken);
      if GoesOn(q, page.paginationToken) {
        var q' := SetProp(q, PaginationKey, OfOption(page.paginationToken));
        assert Get(q', InternalKey) == Get(q, InternalKey) by {
          assert InternalKey != PaginationKey;
        }
        PaginateWalk(q', server[1..], version, books + page.books, requests + [Request(q)]);
      }
    }
  }

  /** One turn of the loop that goes on: the run continues from the next query, page and request log. */
  lemma PaginateNext(q: Record, server: seq<Response>, version: Option<string>, books: seq<Book>, requests: seq<Request>)
    requires server != [] && Decoded(server[0], version).Ok?
    requires GoesOn(q, Decoded(server[0], version).value.paginationToken)
    ensures var page := Decoded(server[0], version).value;
      var q' := SetProp(q, PaginationKey, OfOption(page.paginationToken));
      && Paginate(q, server, version, books, requests) == Paginate(q', server[1..], version, books + page.books, requests + [Request(q)])
      && Walk(Get(q, InternalKey) == Bool(true), server, version, books).count
         == Walk(Get(q, InternalKey) == Bool(true), server[1..], version, books + page.books).count + 1
  {
    GoesOnIff(q, Decoded(server[0], version).value.paginationToken);
  }

  /** `Requests` of one more: the first query, then those from the next query on the remaining responses. */
  lemma RequestsCons(q: Record, server: seq<Response>, version: Option<string>, n: nat)
    requires server != []
    ensures Requests(q, server, version, n + 1)
      == [Request(q)] + Requests(SetProp(q, PaginationKey, OfOption(TokenAt(server, version, 0))), server[1..], version, n)
  {
    var q' := SetProp(q, PaginationKey, OfOption(TokenAt(server, version, 0)));
    var r, r' := Requests(q, server, version, n + 1), Requests(q', server[1..], version, n);
    forall j | 0 <= j < n
      ensures r[j + 1] == r'[j]
    {
      RequestShift(q, server, version, n, j);
    }
    SeqCons(Request(q), r, r');
  }

  lemma RequestShift(q: Record, server: seq<Response>, version: Option<string>, n: nat, j: nat)
    requires server != [] && j < n
    ensures Requests(q, server, version, n + 1)[j + 1]
      == Requests(SetProp(q, PaginationKey, OfOption(TokenAt(server, version, 0))), server[1..], version, n)[j]
  {
    RequestsIndex(q, server, version, n + 1, j + 1);
    RequestsIndex(SetProp(q, PaginationKey, OfOption(TokenAt(server, version, 0))), server[1..], version, n, j);
    QueryShift(q, server, version, j);
  }

  lemma RequestsIndex(q: Record, server: seq<Response>, version: Option<string>, n: nat, j: nat)
    requires j < n
    ensures Requests(q, server, version, n)[j] == Request(QueryAt(q, server, version, j))
  {
  }

  lemma SeqCons<T>(x: T, s: seq<T>, t: seq<T>)
    requires |s| == |t| + 1 && s[0] == x
    requires forall j :: 0 <= j < |t| ==> s[j + 1] == t[j]
    ensures s == [x] + t
  {
  }

  /** The requests of a run, after those made before, are `Requests` from its first query, as many as the walk makes. */
  lemma {:induction false} PaginateRequests(q: Record, server: seq<Response>, version: Option<string>, books: seq<Book>, requests: seq<Request>)
    ensures Paginate(q, server, version, books, requests).requests
      == requests + Requests(q, server, version, Walk(Get(q, InternalKey) == Bool(true), server, version, books).count)
    decreases |server|
  {
    var all := Get(q, InternalKey) == Bool(true);
    if server != [] && Decoded(server[0], version).Ok? {
      var page := Decoded(server[0], version).value;
      GoesOnIff(q, page.paginationToken);
      if GoesOn(q, page.paginationToken) {
        var q' := SetProp(q, PaginationKey, OfOption(page.paginationToken));
        assert Get(q', InternalKey) == Get(q, InternalKey) by {
          assert InternalKey != PaginationKey;
        }
        var w := Walk(all, server[1..], version, books + page.books);
        PaginateNext(q, server, version, books, requests);
        PaginateRequests(q', server[1..], version, books + page.books, requests + [Request(q)]);
        RequestsCons(q, server, version, w.count);
        Assoc(requests, [Request(q)], Requests(q', server[1..], version, w.count));
      } else {
        assert Paginate(q, server, version, books, requests).requests == requests + [Request(q)];
        assert Walk(all, server, version, books).count == 1;
      }
    } else {
      assert Paginate(q, server, version, books, requests).requests == requests + [Request(q)];
      assert Walk(all, server, version, books).count == 1;
    }
  }

  /** A walk that succeeds made `n` requests for its first `n` responses, all pages, all but the last with a token. */
  lemma {:induction false} WalkOkPages(all: bool, server: seq<Response>, version: Option<string>, books: seq<Book>)
    ensures var w := Walk(all, server, version, books);
      var n := w.count;
      w.outcome.Ok? ==>
        && AllDecode(server, version, n) && HaveTokens(server, version, n - 1)
        && n <= |server| && w.rest == server[n..]
    decreases |server|
  {
    if server != [] && Decoded(server[0], version).Ok? {
      var page := Decoded(server[0], version).value;
      if all && page.paginationToken.Some? {
        WalkOkPages(all, server[1..], version, books + page.books);
        var w := Walk(all, server[1..], version, books + page.books);
        var n := w.count + 1;
        if w.outcome.Ok? {
          assert server[1..][n - 1..] == server[n..];
        }
      }
    }
  }

  /** A walk that succeeds returns the books of its pages, in order, after those it started with. */
  lemma {:induction false} WalkOkBooks(all: bool, server: seq<Response>, version: Option<string>, books: seq<Book>)
    ensures var w := Walk(all, server, version, books);
      w.outcome.Ok? ==>
        AllDecode(server, version, w.count) && w.outcome.value.books == books + BooksOf(server, version, w.count)
    decreases |server|
  {
    if server != [] && Decoded(server[0], version).Ok? {
      var page := Decoded(server[0], version).value;
      if all && page.paginationToken.Some? {
        WalkOkBooks(all, server[1..], version, books + page.books);
        var w := Walk(all, server[1..], version, books + page.books);
        if w.outcome.Ok? {
          Assoc(books, page.books, BooksOf(server[1..], version, w.count));
        }
      } else {
        assert BooksOf(server, version, 1) == page.books;
      }
    }
  }

  /**
   * A walk that succeeds returns the session id of its last page (the
   * last one wins), and it stopped because that page had no token or
   * `all` did not hold.
   */
  lemma {:induction false} WalkOkLast(all: bool, server: seq<Response>, version: Option<string>, books: seq<Book>)
    ensures var w := Walk(all, server, version, books);
      w.outcome.Ok? ==>
        && AllDecode(server, version, w.count)
        && w.outcome.value.sessionId == LastPage(server, version, w.count).sessionId
        && (LastPage(server, version, w.count).paginationToken.None? || !all)
    decreases |server|
  {
    if server != [] && Decoded(server[0], version).Ok? {
      var page := Decoded(server[0], version).value;
      if all && page.paginationToken.Some? {
        WalkOkLast(all, server[1..], version, books + page.books);
      }
    }
  }

  /**
   * A walk that fails made `n` requests: the first `n - 1` responses were
   * pages with a token, and the `n`-th is missing (a transport error) or
   * does not decode (its error).
   */
  lemma {:induction false} WalkErr(all: bool, server: seq<Response>, version: Option<string>, books: seq<Book>)
    ensures var w := Walk(all, server, version, books);
      var n := w.count;
      w.outcome.Err? ==>
        && 1 <= n <= |server| + 1
        && HaveTokens(server, version, n - 1)
        && (n - 1 == |server| ==> w.outcome.error == TransportError && w.rest == [])
        && (n - 1 < |server| ==> Decoded(server[n - 1], version) == Err(w.outcome.error) && w.rest == server[n..])
    decreases |server|
  {
    if server != [] && Decoded(server[0], version).Ok? {
      var page := Decoded(server[0], version).value;
      if all && page.paginationToken.Some? {
        WalkErr(all, server[1..], version, books + page.books);
        var w := Walk(all, server[1..], version, books + page.books);
        var n := w.count + 1;
        if w.outcome.Err? && n - 1 < |server| {
          assert server[1..][n - 2] == server[n - 1];
          assert server[1..][n - 1..] == server[n..];
        }
      }
    }
  }

  /**
   * Conversely: when `all` holds, the first `n - 1` responses are pages
   * with a token and the `n`-th a page without one, the walk takes exactly
   * those `n` pages.
   */
  lemma {:induction false} WalkAll(server: seq<Response>, version: Option<string>, books: seq<Book>, n: nat)
    requires 1 <= n && AllDecode(server, version, n) && HaveTokens(server, version, n - 1)
    requires LastPage(server, version, n).paginationToken.None?
    ensures Walk(true, server, version, books)
      == Walked(Ok(Fetched(books + BooksOf(server, version, n), LastPage(server, version, n).sessionId)), n, server[n..])
    decreases n
  {
    var page := Decoded(server[0], version).value;
    if n > 1 {
      WalkAll(server[1..], version, books + page.books, n - 1);
      Assoc(books, page.books, BooksOf(server[1..], version, n - 1));
      assert server[1..][n - 1..] == server[n..];
    } else {
      assert BooksOf(server, version, 1) == page.books;
    }
  }

  /**
   * Whatever token comes back, a run whose query does not set
   * `fetchAllPages` to `true` requests exactly one URL, that of its query.
   */
  lemma SinglePage(q: Record, server: seq<Response>, version: Option<string>, books: seq<Book>, requests: seq<Request>)
    requires Get(q, InternalKey) != Bool(true)
    ensures var run := Paginate(q, server, version, books, requests);
      && run.requests == requests + [Request(q)]
      && run.rest == (if server == [] then [] else server[1..])
      && (server != [] && Decoded(server[0], version).Ok? ==>
            var page := Decoded(server[0], version).value;
            run.outcome == Ok(Fetched(books + page.books, page.sessionId)))
  {
    if server != [] && Decoded(server[0], version).Ok? {
      GoesOnIff(q, Decoded(server[0], version).value.paginationToken);
    }
  }

  /** The defaults: time of acquisition, newest first, fifty per page, one page, no search term. */
  lemma DefaultQueryFields()
    ensures Get(DefaultQuery, "sortType") == Str("acquisition_desc")
    ensures Get(DefaultQuery, "querySize") == Num(50)
    ensures Get(DefaultQuery, InternalKey) == Bool(false)
    ensures Get(DefaultQuery, "searchTerm") == Str("")
    ensures forall k {:trigger Has(DefaultQuery, k)} :: Has(DefaultQuery, k) <==> k in {"sortType", "querySize", InternalKey, "searchTerm"}
  {
    assert DefaultQuery == [("sortType", Str("acquisition_desc")), ("querySize", Num(50)),
                            (InternalKey, Bool(false)), ("searchTerm", Str(""))];
    GetEntry(DefaultQuery, 0);
    GetEntry(DefaultQuery, 1);
    GetEntry(DefaultQuery, 2);
    GetEntry(DefaultQuery, 3);
  }

  /** Fetching all pages happens only when the caller's query asks for it. */
  lemma FetchAllOnRequest(query: Record)
    ensures Get(Spread(DefaultQuery, query), InternalKey) == Bool(true) <==> Get(query, InternalKey) == Bool(true)
  {
    DefaultQueryFields();
  }

  /** The defaults fetch one page: one request, and the first response decides the outcome. */
  lemma DefaultRun(s: seq<Response>)
    ensures var run := Paginate(Spread(DefaultQuery, []), s, None, [], []);
      && run.requests == [Request(DefaultQuery)]
      && run.rest == (if s == [] then [] else s[1..])
      && (s == [] ==> run.outcome == Err(TransportError))
      && (s != [] && Decoded(s[0], None).Err? ==> run.outcome == Err(Decoded(s[0], None).error))
      && (s != [] && Decoded(s[0], None).Ok? ==>
            var page := Decoded(s[0], None).value;
            run.outcome == Ok(Fetched(page.books, page.sessionId)))
  {
    DefaultQueryFields();
    assert Spread(DefaultQuery, []) == DefaultQuery;
    SinglePage(DefaultQuery, s, None, [], []);
    if s != [] && Decoded(s[0], None).Ok? {
      assert [] + Decoded(s[0], None).value.books == Decoded(s[0], None).value.books;
    }
  }

  /**
   * `fromConfig` makes exactly one catalog request, for the defaults and
   * without session headers, and stops with its error when that page does
   * not come or does not decode.
   */
  lemma BootstrapCatalog(config: Config, cookies: Record)
    requires CookiesOf(config.cookies) == Ok(cookies)
    ensures var b, s := Bootstrap(config), config.tlsServer;
      var catalog := Forward(CatalogUrl(DefaultQuery), RequestHeaders(SerializeCookies(cookies), map[], None, None));
      && 1 <= |b.sent| <= 2 && b.sent[0] == catalog
      && (s == [] ==> b == Boot(Err(TransportError), [catalog], []))
      && (s != [] && Decoded(s[0], None).Err? ==> b == Boot(Err(Decoded(s[0], None).error), [catalog], s[1..]))
  {
    var run := Paginate(Spread(DefaultQuery, []), config.tlsServer, None, [], []);
    var h := RequestHeaders(SerializeCookies(cookies), map[], None, None);
    DefaultRun(config.tlsServer);
    assert Sent(run.requests, h) == [Forward(CatalogUrl(DefaultQuery), h)] by {
      SentOne(DefaultQuery, h);
    }
    if run.outcome.Err? {
      BootstrapRunFails(config, cookies, run);
    } else {
      BootstrapRunSucceeds(config, cookies, run);
    }
  }

  /**
   * After a first page that decodes, `fromConfig` sends exactly two
   * requests: the catalog page for the defaults without session headers,
   * then the device-token request with that page's session id.
   */
  lemma BootstrapDeviceRequests(config: Config, cookies: Record, page: Page)
    requires CookiesOf(config.cookies) == Ok(cookies)
    requires config.tlsServer != [] && Decoded(config.tlsServer[0], None) == Ok(page)
    ensures var c := SerializeCookies(cookies);
      Bootstrap(config).sent == [Forward(CatalogUrl(DefaultQuery), RequestHeaders(c, map[], None, None)),
                                 Forward(DeviceTokenUrl(config.deviceToken), RequestHeaders(c, map[], page.sessionId, None))]
  {
    var run := Paginate(Spread(DefaultQuery, []), config.tlsServer, None, [], []);
    var h := RequestHeaders(SerializeCookies(cookies), map[], None, None);
    assert Sent(run.requests, h) == [Forward(CatalogUrl(DefaultQuery), h)] by {
      DefaultRun(config.tlsServer);
      SentOne(DefaultQuery, h);
    }
    BootstrapRunSucceeds(config, cookies, run);
  }

  /**
   * After a first page that decodes, `fromConfig` ends in the session made
   * of the cookies, the page's session id and books, and the device reply's
   * token; it fails when that reply is missing or not JSON.
   */
  lemma BootstrapDevice(config: Config, cookies: Record, page: Page)
    requires CookiesOf(config.cookies) == Ok(cookies)
    requires config.tlsServer != [] && Decoded(config.tlsServer[0], None) == Ok(page)
    ensures var b, s := Bootstrap(config), config.tlsServer;
      && (|s| == 1 ==> b.outcome == Err(TransportError) && b.rest == [])
      && (|s| >= 2 ==> b.rest == s[2..])
      && (|s| >= 2 && s[1].body.Malformed? ==> b.outcome == Err(SyntaxError))
      && (|s| >= 2 && s[1].body.Json? ==>
            b.outcome == Ok(Session(cookies, page.sessionId, s[1].body.deviceSessionToken, page.books)))
  {
    var s := config.tlsServer;
    var run := Paginate(Spread(DefaultQuery, []), s, None, [], []);
    DefaultRun(s);
    BootstrapRunSucceeds(config, cookies, run);
    if |s| >= 2 {
      assert s[1..][1..] == s[2..];
    }
  }
}
