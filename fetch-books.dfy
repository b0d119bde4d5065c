/**
 * One catalog request (`fetchBooks`) and the URL builder (`toUrl`) that
 * writes the query options into the catalog URL's search parameters.
 */
module FetchBooks {
  import opened Js
  import opened UrlSearchParams
  import opened HttpClient

  /** `KindleBook`: a list entry with the API version tag it was made with. */
  datatype Book = Book(data: BookData, version: Option<string>)

  /** What one catalog request yields. */
  datatype Page = Page(books: seq<Book>, sessionId: Option<string>, paginationToken: Option<string>)

  /** `itemsList.map(book => new KindleBook(book, client, version))`. */
  function MapBooks(items: seq<BookData>, version: Option<string>): (r: seq<Book>)
    ensures |r| == |items|
    ensures forall i :: 0 <= i < |r| ==> r[i].data == items[i] && r[i].version == version
  {
    if items == [] then [] else [Book(items[0], version)] + MapBooks(items[1..], version)
  }

  /** Reading `m[k]` on a plain object of strings. */
  function Lookup(m: map<string, string>, k: string): (v: Option<string>)
  {
    if k in m then Some(m[k]) else None
  }

  /**
   * The part of `fetchBooks` after the request: the session id from the
   * `session-id` set-cookie, one book per list entry, the next-page token.
   */
  function DecodePage(setCookies: map<string, string>, body: Body, version: Option<string>): (r: Result<Page>)
    ensures body.Malformed? ==> r == Err(SyntaxError)
    ensures body.Json? && body.itemsList.None? ==> r == Err(TypeError)
    ensures r.Ok? <==> body.Json? && body.itemsList.Some?
    ensures r.Ok? ==> r.value.sessionId == Lookup(setCookies, "session-id")
    ensures r.Ok? ==> r.value.paginationToken == body.paginationToken
    ensures r.Ok? ==> |r.value.books| == |body.itemsList.value|
    ensures r.Ok? ==> forall i :: 0 <= i < |r.value.books| ==>
      r.value.books[i] == Book(body.itemsList.value[i], version)
  {
    var sessionId := Lookup(setCookies, "session-id");
    match body
    case Malformed => Err(SyntaxError)
    case Json(items, token, _) =>
      if items.None? then Err(TypeError)
      else Ok(Page(MapBooks(items.value, version), sessionId, token))
  }

  /** `fetchBooks(client, url, version)`: one request, then its decoding. */
  method FetchBooks(client: DefaultHttpClient, url: Url, version: Option<string>) returns (r: Result<Page>)
    modifies client`pending, client`sent
    ensures client.sent == old(client.sent)
      + [Forward(url, RequestHeaders(SerializeCookies(client.cookies), map[], client.sessionId, client.adpSessionId))]
    ensures old(client.pending) == [] ==> r == Err(TransportError) && client.pending == []
    ensures old(client.pending) != [] ==>
      && r == DecodePage(old(client.pending)[0].cookies, old(client.pending)[0].body, version)
      && client.pending == old(client.pending)[1..]
  {
    var resp :- client.Request(url, map[]);
    var newCookies := client.ExtractSetCookies(resp);
    r := DecodePage(newCookies, resp.body, version);
  }

  /** The option `toUrl` keeps out of the URL: the pagination switch is internal. */
  const InternalKey := "fetchAllPages"

  /** One turn of `toUrl`'s loop: skip the internal key, else `set` a defined value or `delete` an undefined one. */
  function Step(params: seq<Param>, e: Entry): seq<Param>
  {
    if e.0 == InternalKey then params
    else if e.1 != Undefined then Set(params, e.0, ToText(e.1))
    else Delete(params, e.0)
  }

  /** The search parameters after `toUrl`'s loop has visited every entry of `options`. */
  function ApplyOptions(params: seq<Param>, options: seq<Entry>): seq<Param>
    decreases |options|
  {
    if options == [] then params else ApplyOptions(Step(params, options[0]), options[1..])
  }

  /** The URL `toUrl(baseUrl, query, filter)` builds. */
  function UrlFor(baseUrl: Url, query: Record, filter: Record): (url: Url)
    ensures url.base == baseUrl.base
  {
    Url(baseUrl.base, ApplyOptions(baseUrl.params, Spread(query, filter)))
  }

  /**
   * `toUrl`: start from the base URL and, for each merged option in order,
   * `set` or `delete` its search parameter in place.
   */
  method ToUrl(baseUrl: Url, query: Record, filter: Record) returns (url: Url)
    ensures url == UrlFor(baseUrl, query, filter)
  {
    var searchParams := new SearchParams(baseUrl.params);
    var options := Spread(query, filter);
    for i := 0 to |options|
      invariant ApplyOptions(searchParams.list, options[i..]) == ApplyOptions(baseUrl.params, options)
    {
      assert options[i..][1..] == options[i + 1..];
      var (key, value) := options[i];
      if key == InternalKey {
        continue;
      }
      if value != Undefined {
        searchParams.SetParam(key, ToText(value));
      } else {
        searchParams.DeleteParam(key);
      }
    }
    url := Url(baseUrl.base, searchParams.list);
  }

  /** The pairs one name carries after the loop, read off the options alone. */
  function Expected(base: seq<Param>, options: Record, name: string): seq<Param>
  {
    if name == InternalKey || !Has(options, name) then Named(base, name)
    else if Get(options, name) == Undefined then []
    else [(name, ToText(Get(options, name)))]
  }

  /** Name by name, the loop's result depends only on that name's option and the base URL. */
  lemma {:induction false} ApplyOptionsNamed(base: seq<Param>, options: Record, name: string)
    ensures Named(ApplyOptions(base, options), name) == Expected(base, options, name)
    decreases |options|
  {
    if options != [] {
      var e := options[0];
      var rest: Record := options[1..];
      ApplyOptionsNamed(Step(base, e), rest, name);
      assert !Has(rest, e.0);
    }
  }

  /** In a record, every entry is what its key reads. */
  lemma {:induction false} GetEntry(r: Record, i: nat)
    requires i < |r|
    ensures Has(r, r[i].0) && Get(r, r[i].0) == r[i].1
    decreases i
  {
    if i > 0 {
      var rest: Record := r[1..];
      GetEntry(rest, i - 1);
      assert r[0].0 != r[i].0;
    }
  }

  /** What `toUrl` promises about each search parameter. */
  lemma ToUrlParams(baseUrl: Url, query: Record, filter: Record, name: string)
    ensures var options := Spread(query, filter);
      var out := UrlFor(baseUrl, query, filter).params;
      && (name == InternalKey ==> Named(out, name) == Named(baseUrl.params, name))
      && (name != InternalKey && Has(options, name) && Get(options, name) == Undefined ==> !HasName(out, name))
      && (name != InternalKey && Get(options, name) != Undefined ==>
            Named(out, name) == [(name, ToText(Get(options, name)))])
      && (!Has(options, name) ==> Named(out, name) == Named(baseUrl.params, name))
    ensures UrlFor(baseUrl, query, filter).base == baseUrl.base
  {
    ApplyOptionsNamed(baseUrl.params, Spread(query, filter), name);
  }

  /** `toUrl` never emits the internal `fetchAllPages` switch unless the base URL already had it. */
  lemma NoInternalKey(baseUrl: Url, query: Record, filter: Record)
    requires !HasName(baseUrl.params, InternalKey)
    ensures !HasName(UrlFor(baseUrl, query, filter).params, InternalKey)
  {
    ToUrlParams(baseUrl, query, filter, InternalKey);
  }

  /** `filter` wins over `query` for a key both define. */
  lemma FilterOverridesQuery(baseUrl: Url, query: Record, filter: Record, name: string)
    requires name != InternalKey && Get(filter, name) != Undefined
    ensures Named(UrlFor(baseUrl, query, filter).params, name) == [(name, ToText(Get(filter, name)))]
  {
    ToUrlParams(baseUrl, query, filter, name);
  }

  /** `ApplyOptions` leaves a list alone when every step already holds of it. */
  lemma {:induction false} ApplyFixed(params: seq<Param>, options: seq<Entry>)
    requires forall i :: 0 <= i < |options| ==> Step(params, options[i]) == params
    ensures ApplyOptions(params, options) == params
    decreases |options|
  {
    if options != [] {
      ApplyFixed(params, options[1..]);
    }
  }

  /** Re-applying the same options to a built URL changes nothing. */
  lemma ApplyOptionsIdempotent(base: seq<Param>, options: Record)
    ensures ApplyOptions(ApplyOptions(base, options), options) == ApplyOptions(base, options)
  {
    var built := ApplyOptions(base, options);
    forall i | 0 <= i < |options| ensures Step(built, options[i]) == built {
      var (k, v) := options[i];
      GetEntry(options, i);
      ApplyOptionsNamed(base, options, k);
      if k != InternalKey {
        if v != Undefined {
          SetPresent(built, k, ToText(v));
        }
      }
    }
    ApplyFixed(built, options);
  }

  /** `toUrl` applied again to its own output, with the same options, gives the same URL. */
  lemma ToUrlIdempotent(baseUrl: Url, query: Record, filter: Record)
    ensures var once := UrlFor(baseUrl, query, filter);
      Url(once.base, ApplyOptions(once.params, Spread(query, filter))) == once
  {
    ApplyOptionsIdempotent(baseUrl.params, Spread(query, filter));
  }

  // Where each search parameter ends up

  /**
   * What `toUrl` makes of one pair of the base URL: left alone when no
   * option names it (or it is the internal key), removed by an `undefined`
   * option, and given the option's value in its place otherwise.
   */
  function Keep1(p: Param, options: seq<Entry>): seq<Param>
  {
    if p.0 == InternalKey || !Has(options, p.0) then [p]
    else if Get(options, p.0) == Undefined then []
    else [(p.0, ToText(Get(options, p.0)))]
  }

  /** The base URL's pairs after `toUrl`, in their original order. */
  function Kept(l: seq<Param>, options: seq<Entry>): seq<Param>
    decreases |l|
  {
    if l == [] then [] else Keep1(l[0], options) + Kept(l[1..], options)
  }

  /** The defined options the base URL has no pair for, in option order: `set` appends each of them. */
  function Appended(l: seq<Param>, options: seq<Entry>): seq<Param>
    decreases |options|
  {
    if options == [] then []
    else
      var e := options[0];
      (if e.0 != InternalKey && e.1 != Undefined && !HasName(l, e.0) then [(e.0, ToText(e.1))] else [])
        + Appended(l, options[1..])
  }

  lemma KeptCons(p: Param, t: seq<Param>, options: seq<Entry>)
    ensures Kept([p] + t, options) == Keep1(p, options) + Kept(t, options)
  {
    assert ([p] + t)[1..] == t;
  }

  lemma {:induction false} KeptAppend(a: seq<Param>, b: seq<Param>, options: seq<Entry>)
    ensures Kept(a + b, options) == Kept(a, options) + Kept(b, options)
    decreases |a|
  {
    if a == [] {
      assert a + b == b;
    } else {
      KeptCons(a[0], a[1..] + b, options);
      assert [a[0]] + (a[1..] + b) == a + b;
      KeptAppend(a[1..], b, options);
      Assoc(Keep1(a[0], options), Kept(a[1..], options), Kept(b, options));
    }
  }

  lemma {:induction false} KeptNone(l: seq<Param>)
    ensures Kept(l, []) == l
    decreases |l|
  {
    if l != [] {
      KeptNone(l[1..]);
    }
  }

  /** An option about another name does not touch a pair. */
  lemma Keep1Other(p: Param, options: Record)
    requires options != [] && p.0 != options[0].0
    ensures Keep1(p, options[1..]) == Keep1(p, options)
  {
  }

  /** An option the base URL has no pair for (or the internal key) leaves every base pair alone. */
  lemma {:induction false} KeptAgree(l: seq<Param>, options: Record)
    requires options != [] && (!HasName(l, options[0].0) || options[0].0 == InternalKey)
    ensures Kept(l, options[1..]) == Kept(l, options)
    decreases |l|
  {
    if l != [] {
      if l[0].0 != options[0].0 {
        Keep1Other(l[0], options);
      }
      KeptAgree(l[1..], options);
    }
  }

  /** Replacing the named pair's value in place is what the option does to the base pairs. */
  lemma {:induction false} KeptReplace(l: seq<Param>, options: Record)
    requires options != [] && options[0].0 != InternalKey && options[0].1 != Undefined
    ensures Kept(Replace(l, options[0].0, ToText(options[0].1)), options[1..]) == Kept(l, options)
    decreases |l|
  {
    var (n, v) := (options[0].0, ToText(options[0].1));
    var rest: Record := options[1..];
    if l != [] {
      var h := if l[0].0 == n then (n, v) else l[0];
      assert Replace(l, n, v) == [h] + Replace(l[1..], n, v);
      KeptCons(h, Replace(l[1..], n, v), rest);
      KeptReplace(l[1..], options);
      if l[0].0 != n {
        Keep1Other(l[0], options);
      } else {
        assert !Has(rest, n);
      }
    }
  }

  /** Removing the named pair is what an `undefined` option does to the base pairs. */
  lemma {:induction false} KeptDelete(l: seq<Param>, options: Record)
    requires options != [] && options[0].0 != InternalKey && options[0].1 == Undefined
    ensures Kept(Delete(l, options[0].0), options[1..]) == Kept(l, options)
    decreases |l|
  {
    var n := options[0].0;
    if l != [] {
      KeptDelete(l[1..], options);
      if l[0].0 != n {
        Keep1Other(l[0], options);
        assert Delete(l, n) == [l[0]] + Delete(l[1..], n);
        KeptCons(l[0], Delete(l[1..], n), options[1..]);
      }
    }
  }

  /** `Appended` depends on the base only through which option names it has. */
  lemma {:induction false} AppendedCongruent(l: seq<Param>, l': seq<Param>, options: seq<Entry>)
    requires forall i :: 0 <= i < |options| ==> HasName(l, options[i].0) == HasName(l', options[i].0)
    ensures Appended(l, options) == Appended(l', options)
    decreases |options|
  {
    if options != [] {
      AppendedCongruent(l, l', options[1..]);
    }
  }

  /** One turn of the loop, in terms of where the pairs go: what is left to do after it ends up where it would have. */
  lemma StepOrder(l: seq<Param>, options: Record)
    requires UniqueNames(l) && options != []
    ensures var l' := Step(l, options[0]);
      && UniqueNames(l')
      && Kept(l', options[1..]) + Appended(l', options[1..]) == Kept(l, options) + Appended(l, options)
  {
    var e := options[0];
    if e.0 == InternalKey {
      KeptAgree(l, options);
    } else if e.1 == Undefined {
      StepDeletes(l, options);
    } else if HasName(l, e.0) {
      StepReplaces(l, options);
    } else {
      StepAppends(l, options);
    }
  }

  /** With unique names, the `set` of a present name is an in-place replacement. */
  lemma StepIsReplace(l: seq<Param>, e: Entry)
    requires UniqueNames(l) && e.0 != InternalKey && e.1 != Undefined && HasName(l, e.0)
    ensures Step(l, e) == Replace(l, e.0, ToText(e.1))
  {
    SetReplaces(l, e.0, ToText(e.1));
  }

  lemma StepReplaces(l: seq<Param>, options: Record)
    requires UniqueNames(l) && options != []
    requires options[0].0 != InternalKey && options[0].1 != Undefined && HasName(l, options[0].0)
    ensures var l' := Step(l, options[0]);
      && UniqueNames(l')
      && Kept(l', options[1..]) + Appended(l', options[1..]) == Kept(l, options) + Appended(l, options)
  {
    var (n, v) := (options[0].0, ToText(options[0].1));
    var rest: Record := options[1..];
    var l' := Replace(l, n, v);
    assert Step(l, options[0]) == l' by {
      StepIsReplace(l, options[0]);
    }
    assert UniqueNames(l') by {
      ReplaceUnique(l, n, v);
    }
    assert Kept(l', rest) == Kept(l, options) by {
      KeptReplace(l, options);
    }
    assert Appended(l', rest) == Appended(l, rest) by {
      forall i | 0 <= i < |rest| ensures HasName(l', rest[i].0) == HasName(l, rest[i].0) {
        ReplaceNames(l, n, v, rest[i].0);
      }
      AppendedCongruent(l', l, rest);
    }
    assert Appended(l, options) == Appended(l, rest) by {
      assert Appended(l, options) == [] + Appended(l, rest);
    }
  }

  lemma StepAppends(l: seq<Param>, options: Record)
    requires UniqueNames(l) && options != []
    requires options[0].0 != InternalKey && options[0].1 != Undefined && !HasName(l, options[0].0)
    ensures var l' := Step(l, options[0]);
      && UniqueNames(l')
      && Kept(l', options[1..]) + Appended(l', options[1..]) == Kept(l, options) + Appended(l, options)
  {
    var (n, v) := (options[0].0, ToText(options[0].1));
    var rest: Record := options[1..];
    HasNone(rest, n);
    var l' := l + [(n, v)];
    AppendUnique(l, (n, v));
    KeptAppend(l, [(n, v)], rest);
    KeptAgree(l, options);
    KeptCons((n, v), [], rest);
    assert Kept(l', rest) == Kept(l, options) + [(n, v)];
    forall i | 0 <= i < |rest| ensures HasName(l', rest[i].0) == HasName(l, rest[i].0) {
      HasNameAppend(l, (n, v), rest[i].0);
    }
    AppendedCongruent(l', l, rest);
    assert Appended(l, options) == [(n, v)] + Appended(l, rest);
    Assoc(Kept(l, options), [(n, v)], Appended(l, rest));
  }

  lemma StepDeletes(l: seq<Param>, options: Record)
    requires UniqueNames(l) && options != []
    requires options[0].0 != InternalKey && options[0].1 == Undefined
    ensures var l' := Step(l, options[0]);
      && UniqueNames(l')
      && Kept(l', options[1..]) + Appended(l', options[1..]) == Kept(l, options) + Appended(l, options)
  {
    var n := options[0].0;
    var rest: Record := options[1..];
    HasNone(rest, n);
    var l' := Delete(l, n);
    assert Step(l, options[0]) == l';
    DeleteUnique(l, n);
    KeptDelete(l, options);
    forall i | 0 <= i < |rest| ensures HasName(l', rest[i].0) == HasName(l, rest[i].0) {
      DeleteNames(l, n, rest[i].0);
    }
    AppendedCongruent(l', l, rest);
    assert Appended(l, options) == [] + Appended(l, rest);
  }

  /**
   * With unique names in the base, the loop's result is the base pairs in
   * their places (each kept, removed or given its option's value) followed
   * by the new defined options in the order the options list them.
   */
  lemma {:induction false} ApplyOptionsOrder(l: seq<Param>, options: Record)
    requires UniqueNames(l)
    ensures ApplyOptions(l, options) == Kept(l, options) + Appended(l, options)
    decreases |options|
  {
    if options == [] {
      KeptNone(l);
    } else {
      var rest: Record := options[1..];
      StepOrder(l, options);
      ApplyOptionsOrder(Step(l, options[0]), rest);
    }
  }

  /** `toUrl` keeps the base URL's pairs in their places and appends the new parameters in option order. */
  lemma ToUrlOrder(baseUrl: Url, query: Record, filter: Record)
    requires UniqueNames(baseUrl.params)
    ensures var options := Spread(query, filter);
      UrlFor(baseUrl, query, filter).params == Kept(baseUrl.params, options) + Appended(baseUrl.params, options)
  {
    ApplyOptionsOrder(baseUrl.params, Spread(query, filter));
  }
}
