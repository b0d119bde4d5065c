/**
 * The `Kindle` client: the pagination driver `baseRequest`, `books()`, the
 * bootstrap `fromConfig` (catalog request, then device-token exchange), and
 * the cookie-string parser. Each driver is a method over the client's
 * state, proved against a function that says what the whole run does.
 */
module Kindle {
  import opened Js
  import opened Strings
  import opened UrlSearchParams
  import opened HttpClient
  import opened FetchBooks

  const DeviceTokenBase := "https://read.amazon.com/service/web/register/getDeviceToken"

  /** `BOOKS_URL`, parsed: the catalog endpoint and the parameters it already carries. */
  const BooksUrl := Url("https://read.amazon.com/kindle-library/search",
    [("query", ""), ("libraryType", "BOOKS"), ("sortType", "recency"), ("querySize", "50")])

  /** `DEFAULT_QUERY`: a constant, so nothing can change it. */
  const DefaultQuery: Record :=
    Cons(("sortType", Str("acquisition_desc")), Cons(("querySize", Num(50)),
      Cons((InternalKey, Bool(false)), Cons(("searchTerm", Str("")), []))))

  const PaginationKey := "paginationToken"

  /** A cookie configuration: the string copied from a browser, or the four cookies as an object. */
  datatype CookieInput = CookieString(text: string) | CookieObject(fields: Record)

  /** `KindleConfiguration`; the TLS proxy it names is, here, the responses that proxy will give. */
  datatype Config = Config(cookies: CookieInput, deviceToken: string, clientVersion: Option<string>, tlsServer: seq<Response>)

  /** `KindleOptions`. */
  datatype Options = Options(config: Config, sessionId: Option<string>)

  /** `KindleDeviceInfo`, as far as the client reads it. */
  datatype DeviceInfo = DeviceInfo(deviceSessionToken: Option<string>)

  /** The result of `baseRequest`. */
  datatype Fetched = Fetched(books: seq<Book>, sessionId: Option<string>)

  // ---------------------------------------------------------------------
  // Cookie string parsing

  /** `[key, value] = segment.split("=")`, both trimmed; with no "=", `value` is undefined and `.trim()` throws. */
  function CookiePair(segment: string): (r: Result<(string, string)>)
    ensures r.Ok? ==> Trimmed(r.value.0) && Trimmed(r.value.1)
  {
    var kv := Split(segment, '=');
    if |kv| < 2 then Err(TypeError) else Ok((Trim(kv[0]), Trim(kv[1])))
  }

  /** The `reduce` of `deserializeCookies`: each pair assigned in turn onto the accumulator. */
  function Collect(segments: seq<string>, acc: map<string, string>): (r: Result<map<string, string>>)
    ensures r.Err? ==> r.error == TypeError
    decreases |segments|
  {
    if segments == [] then Ok(acc)
    else match CookiePair(segments[0])
      case Err(e) => Err(e)
      case Ok(kv) => Collect(segments[1..], acc[kv.0 := kv.1])
  }

  function Field(values: map<string, string>, name: string): Value
  {
    if name in values then Str(values[name]) else Undefined
  }

  /** `deserializeCookies`: split on ";", collect the pairs, pick the four cookies (a missing one is undefined). */
  function DeserializeCookies(cookies: string): (r: Result<Record>)
    ensures r.Ok? <==> AllPairs(Split(cookies, ';'))
    ensures r.Err? ==> r.error == TypeError
  {
    CollectOkIff(Split(cookies, ';'), map[]);
    match Collect(Split(cookies, ';'), map[])
    case Err(e) => Err(e)
    case Ok(values) =>
      Ok(RequiredCookies(Field(values, "at-main"), Field(values, "session-id"),
                         Field(values, "ubid-main"), Field(values, "x-main")))
  }

  /** `KindleRequiredCookies` in the order `deserializeCookies` builds it. */
  function RequiredCookies(atMain: Value, sessionId: Value, ubidMain: Value, xMain: Value): Record
  {
    Cons(("atMain", atMain), Cons(("sessionId", sessionId), Cons(("ubidMain", ubidMain), Cons(("xMain", xMain), []))))
  }

  function CookiesOf(input: CookieInput): Result<Record>
  {
    match input
    case CookieString(text) => DeserializeCookies(text)
    case CookieObject(fields) => Ok(fields)
  }

  /** A segment fails to parse exactly when it has no "="; otherwise its key and value are the trimmed text around the first "=". */
  lemma CookiePairIff(segment: string)
    ensures CookiePair(segment).Err? <==> '=' !in segment
  {
    if '=' !in segment {
      SplitNone(segment, '=');
    }
  }

  /** `key=value` with neither side holding "=" parses to the trimmed key and value. */
  lemma CookiePairOf(key: string, value: string)
    requires '=' !in key && '=' !in value
    ensures CookiePair(key + "=" + value) == Ok((Trim(key), Trim(value)))
  {
    SplitCons(key, '=', value);
    SplitNone(value, '=');
  }

  /** The `reduce` is a left fold: one more segment is one more assignment onto the result so far. */
  lemma {:induction false} CollectAppend(segments: seq<string>, segment: string, acc: map<string, string>)
    ensures Collect(segments + [segment], acc) ==
      match Collect(segments, acc)
      case Err(e) => Err(e)
      case Ok(m) =>
        match CookiePair(segment)
        case Err(e) => Err(e)
        case Ok(kv) => Ok(m[kv.0 := kv.1])
    decreases |segments|
  {
    if segments == [] {
      assert [] + [segment] == [segment];
    } else {
      assert (segments + [segment])[1..] == segments[1..] + [segment];
      match CookiePair(segments[0])
      case Err(_) =>
      case Ok(kv) => CollectAppend(segments[1..], segment, acc[kv.0 := kv.1]);
    }
  }

  /** A later segment with the same key overwrites an earlier one: the last segment's value is what the key ends with. */
  lemma LaterDuplicateWins(segments: seq<string>, segment: string, acc: map<string, string>)
    requires Collect(segments + [segment], acc).Ok?
    ensures CookiePair(segment).Ok?
    ensures var kv := CookiePair(segment).value;
      kv.0 in Collect(segments + [segment], acc).value && Collect(segments + [segment], acc).value[kv.0] == kv.1
  {
    CollectAppend(segments, segment, acc);
  }

  /** Every segment holds an "=". */
  predicate AllPairs(segments: seq<string>)
  {
    forall i :: 0 <= i < |segments| ==> '=' in segments[i]
  }

  /** The fold fails exactly when some segment has no "=". */
  lemma {:induction false} CollectOkIff(segments: seq<string>, acc: map<string, string>)
    ensures Collect(segments, acc).Ok? <==> AllPairs(segments)
    decreases |segments|
  {
    if segments != [] {
      CookiePairIff(segments[0]);
      AllPairsCons(segments);
      match CookiePair(segments[0])
      case Err(_) =>
      case Ok(kv) => CollectOkIff(segments[1..], acc[kv.0 := kv.1]);
    }
  }

  lemma AllPairsCons(segments: seq<string>)
    requires segments != []
    ensures AllPairs(segments) <==> '=' in segments[0] && AllPairs(segments[1..])
  {
    assert forall i :: 1 <= i < |segments| ==> segments[1..][i - 1] == segments[i];
  }

  /** `deserializeCookies` renames the four kebab-case cookies to the fields of `KindleRequiredCookies`, and fails exactly on a segment without "=". */
  lemma DeserializeFields(cookies: string)
    ensures DeserializeCookies(cookies).Ok? <==> AllPairs(Split(cookies, ';'))
    ensures DeserializeCookies(cookies).Ok? ==>
      var values := Collect(Split(cookies, ';'), map[]).value;
      var r := DeserializeCookies(cookies).value;
      && Get(r, "atMain") == Field(values, "at-main")
      && Get(r, "sessionId") == Field(values, "session-id")
      && Get(r, "ubidMain") == Field(values, "ubid-main")
      && Get(r, "xMain") == Field(values, "x-main")
      && forall k {:trigger Has(r, k)} :: Has(r, k) <==> k in {"atMain", "sessionId", "ubidMain", "xMain"}
  {
    var segments := Split(cookies, ';');
    CollectOkIff(segments, map[]);
    assert DeserializeCookies(cookies).Ok? <==> Collect(segments, map[]).Ok?;
    if DeserializeCookies(cookies).Ok? {
      var values := Collect(Split(cookies, ';'), map[]).value;
      RequiredFields(Field(values, "at-main"), Field(values, "session-id"), Field(values, "ubid-main"), Field(values, "x-main"));
    }
  }

  /** The four fields of `KindleRequiredCookies` and nothing else. */
  lemma RequiredFields(atMain: Value, sessionId: Value, ubidMain: Value, xMain: Value)
    ensures var r := RequiredCookies(atMain, sessionId, ubidMain, xMain);
      && Get(r, "atMain") == atMain && Get(r, "sessionId") == sessionId
      && Get(r, "ubidMain") == ubidMain && Get(r, "xMain") == xMain
      && forall k {:trigger Has(r, k)} :: Has(r, k) <==> k in {"atMain", "sessionId", "ubidMain", "xMain"}
  {
    var r := RequiredCookies(atMain, sessionId, ubidMain, xMain);
    assert r == [("atMain", atMain), ("sessionId", sessionId), ("ubidMain", ubidMain), ("xMain", xMain)];
    GetEntry(r, 0);
    GetEntry(r, 1);
    GetEntry(r, 2);
    GetEntry(r, 3);
  }

  /**
   * Text that survives the cookie string: no ";", no "=", no white space at
   * either end, and no "%", so that decodeURIComponent leaves it as it is.
   */
  predicate Plain(v: string)
  {
    ';' !in v && '=' !in v && '%' !in v && Trimmed(v)
  }

  /** A cookie that serializes to a parsable `name=value`: a plain, non-empty name and a plain string value. */
  predicate PlainCookie(e: Entry)
  {
    Kebab(e.0) != [] && Plain(Kebab(e.0)) && e.1.Str? && Plain(e.1.s)
  }

  predicate PlainCookies(cookies: seq<Entry>)
  {
    forall i :: 0 <= i < |cookies| ==> PlainCookie(cookies[i])
  }

  /** The map that assigning every cookie, under its kebab-case name, onto `acc` gives. */
  function Assigned(cookies: seq<Entry>, acc: map<string, string>): map<string, string>
    decreases |cookies|
  {
    if cookies == [] then acc else Assigned(cookies[1..], acc[Kebab(cookies[0].0) := ToText(cookies[0].1)])
  }

  /** The fold takes the segments from the front. */
  lemma CollectCons(segment: string, rest: seq<string>, acc: map<string, string>)
    ensures Collect([segment] + rest, acc) ==
      match CookiePair(segment)
      case Err(e) => Err(e)
      case Ok(kv) => Collect(rest, acc[kv.0 := kv.1])
  {
    assert ([segment] + rest)[1..] == rest;
  }

  /** The cookies after the first are plain when all of them are. */
  lemma PlainTail(cookies: seq<Entry>)
    requires cookies != [] && PlainCookies(cookies)
    ensures PlainCookie(cookies[0]) && PlainCookies(cookies[1..])
  {
    assert forall i :: 1 <= i < |cookies| ==> cookies[1..][i - 1] == cookies[i];
  }

  /** The first segment of the padded pairs is the first cookie, written out. */
  lemma PrefixedPairs(cookies: seq<Entry>)
    requires cookies != []
    ensures Prefixed(" ", CookiePairs(cookies))
      == [" " + Kebab(cookies[0].0) + "=" + ToText(cookies[0].1)] + Prefixed(" ", CookiePairs(cookies[1..]))
  {
    var name, v := Kebab(cookies[0].0), ToText(cookies[0].1);
    assert CookiePairs(cookies) == [name + "=" + v] + CookiePairs(cookies[1..]);
    PrefixedCons(" ", name + "=" + v, CookiePairs(cookies[1..]));
    Assoc(" ", name, "=");
    Assoc(" ", name + "=", v);
  }

  /** Every `" name=value"` segment after the first parses back to its cookie. */
  lemma {:induction false} CollectPadded(cookies: seq<Entry>, acc: map<string, string>)
    requires PlainCookies(cookies)
    ensures Collect(Prefixed(" ", CookiePairs(cookies)), acc) == Ok(Assigned(cookies, acc))
    decreases |cookies|
  {
    if cookies != [] {
      var name, v := Kebab(cookies[0].0), cookies[0].1.s;
      PlainTail(cookies);
      PrefixedPairs(cookies);
      CollectCons(" " + name + "=" + v, Prefixed(" ", CookiePairs(cookies[1..])), acc);
      CookiePairOf(" " + name, v);
      TrimSpace(name);
      CollectPadded(cookies[1..], acc[name := v]);
    }
  }

  /** Plain cookies give non-empty `name=value` pairs without ";". */
  lemma PairsPlain(cookies: seq<Entry>)
    requires PlainCookies(cookies)
    ensures forall i :: 0 <= i < |CookiePairs(cookies)| ==> CookiePairs(cookies)[i] != [] && ';' !in CookiePairs(cookies)[i]
  {
    var pairs := CookiePairs(cookies);
    forall i | 0 <= i < |pairs| ensures pairs[i] != [] && ';' !in pairs[i] {
      assert PlainCookie(cookies[i]);
    }
  }

  /** For plain cookies the final `trim()` of `serializeCookies` has nothing to remove. */
  lemma SerializeTrimmed(cookies: Record)
    requires cookies != [] && PlainCookies(cookies)
    ensures SerializeCookies(cookies) == Join(CookiePairs(cookies), "; ")
  {
    var pairs := CookiePairs(cookies);
    var joined := Join(pairs, "; ");
    PairsPlain(cookies);
    JoinEnds(pairs, "; ");
    assert PlainCookie(cookies[0]) && PlainCookie(cookies[|cookies| - 1]);
    assert Trimmed(joined) by {
      assert joined[0] == Kebab(cookies[0].0)[0];
    }
  }

  /** The cookie string `serializeCookies` writes splits and folds back into every cookie under its kebab-case name. */
  lemma SerializeThenCollect(cookies: Record)
    requires cookies != [] && PlainCookies(cookies)
    ensures Collect(Split(SerializeCookies(cookies), ';'), map[]) == Ok(Assigned(cookies, map[]))
  {
    var pairs := CookiePairs(cookies);
    var name, v := Kebab(cookies[0].0), cookies[0].1.s;
    SerializeTrimmed(cookies);
    PairsPlain(cookies);
    assert "; " == [';'] + " ";
    SplitJoin(pairs, ';', " ");
    assert pairs == [name + "=" + v] + CookiePairs(cookies[1..]);
    assert pairs[1..] == CookiePairs(cookies[1..]);
    PlainTail(cookies);
    CollectCons(pairs[0], Prefixed(" ", pairs[1..]), map[]);
    CookiePairOf(name, v);
    CollectPadded(cookies[1..], map[name := v]);
  }

  /** The four required cookies, assigned under their cookie names. */
  lemma AssignedRequired(a: string, s: string, u: string, x: string)
    ensures Assigned(RequiredCookies(Str(a), Str(s), Str(u), Str(x)), map[])
      == map["at-main" := a, "session-id" := s, "ubid-main" := u, "x-main" := x]
  {
    KebabNames();
    var r := RequiredCookies(Str(a), Str(s), Str(u), Str(x));
    var r1, r2, r3: seq<Entry> := [("sessionId", Str(s)), ("ubidMain", Str(u)), ("xMain", Str(x))],
      [("ubidMain", Str(u)), ("xMain", Str(x))], [("xMain", Str(x))];
    assert r == [("atMain", Str(a))] + r1 && r1 == [("sessionId", Str(s))] + r2 && r2 == [("ubidMain", Str(u))] + r3;
    var m := map["at-main" := a];
    assert Assigned(r, map[]) == Assigned(r1, m);
    assert Assigned(r1, m) == Assigned(r2, m["session-id" := s]);
    assert Assigned(r2, m["session-id" := s]) == Assigned(r3, m["session-id" := s]["ubid-main" := u]);
    assert Assigned(r3, m["session-id" := s]["ubid-main" := u]) == m["session-id" := s]["ubid-main" := u]["x-main" := x] by {
      assert r3[1..] == [];
    }
  }

  /** A non-empty name of lower-case letters and dashes is plain. */
  lemma LowerPlain(v: string)
    requires forall i :: 0 <= i < |v| ==> 'a' <= v[i] <= 'z' || v[i] == '-'
    ensures Plain(v)
  {
    assert forall i :: 0 <= i < |v| ==> v[i] != ';' && v[i] != '=' && v[i] != '%';
  }

  /** The four cookie names are plain. */
  lemma PlainNames()
    ensures Plain("at-main") && Plain("session-id") && Plain("ubid-main") && Plain("x-main")
  {
    LowerPlain("at-main");
    LowerPlain("session-id");
    LowerPlain("ubid-main");
    LowerPlain("x-main");
  }

  /** Each of the four names reads back its own value. */
  lemma FieldsOfValues(a: string, s: string, u: string, x: string)
    ensures var values := map["at-main" := a, "session-id" := s, "ubid-main" := u, "x-main" := x];
      && Field(values, "at-main") == Str(a) && Field(values, "session-id") == Str(s)
      && Field(values, "ubid-main") == Str(u) && Field(values, "x-main") == Str(x)
  {
    assert |"at-main"| == 7 && |"session-id"| == 10 && |"ubid-main"| == 9 && |"x-main"| == 6;
  }

  /** Serializing the four required cookies and parsing the string back gives the same four cookies. */
  lemma CookieRoundTrip(a: string, s: string, u: string, x: string)
    requires Plain(a) && Plain(s) && Plain(u) && Plain(x)
    ensures DeserializeCookies(SerializeCookies(RequiredCookies(Str(a), Str(s), Str(u), Str(x))))
      == Ok(RequiredCookies(Str(a), Str(s), Str(u), Str(x)))
  {
    var r := RequiredCookies(Str(a), Str(s), Str(u), Str(x));
    assert PlainCookies(r) by {
      KebabNames();
      PlainNames();
      assert r == [("atMain", Str(a)), ("sessionId", Str(s)), ("ubidMain", Str(u)), ("xMain", Str(x))];
    }
    SerializeThenCollect(r);
    AssignedRequired(a, s, u, x);
    FieldsOfValues(a, s, u, x);
  }

  /** Assigning cookies none of which is named `name` leaves `acc`'s value for `name` as it was. */
  lemma {:induction false} AssignedOther(cookies: seq<Entry>, acc: map<string, string>, name: string)
    requires name in acc
    requires forall i :: 0 <= i < |cookies| ==> Kebab(cookies[i].0) != name
    ensures name in Assigned(cookies, acc) && Assigned(cookies, acc)[name] == acc[name]
    decreases |cookies|
  {
    if cookies != [] {
      assert forall i :: 0 <= i < |cookies| - 1 ==> cookies[1..][i] == cookies[i + 1];
      AssignedOther(cookies[1..], acc[Kebab(cookies[0].0) := ToText(cookies[0].1)], name);
    }
  }

  /** The only key of `cookies` whose cookie name is `name` is `key`. */
  ghost predicate NamedOnly(cookies: seq<Entry>, key: string, name: string)
  {
    forall i :: 0 <= i < |cookies| ==> (Kebab(cookies[i].0) == name <==> cookies[i].0 == key)
  }

  /** When `key` is the only property written under cookie name `name`, the assignments leave its value there. */
  lemma {:induction false} AssignedKey(cookies: Record, acc: map<string, string>, key: string, name: string)
    requires Has(cookies, key) && NamedOnly(cookies, key, name)
    ensures name in Assigned(cookies, acc) && Assigned(cookies, acc)[name] == ToText(Get(cookies, key))
    decreases |cookies|
  {
    var rest: Record := cookies[1..];
    var acc' := acc[Kebab(cookies[0].0) := ToText(cookies[0].1)];
    assert forall i :: 0 <= i < |rest| ==> rest[i] == cookies[i + 1];
    if cookies[0].0 == key {
      HasNone(rest, key);
      AssignedOther(rest, acc', name);
    } else {
      AssignedKey(rest, acc', key, name);
    }
  }

  /** A record holding exactly the four required fields, with plain values, in any order. */
  ghost predicate FourPlainFields(cookies: Record, a: string, s: string, u: string, x: string)
  {
    && (forall k {:trigger Has(cookies, k)} :: Has(cookies, k) <==> k in {"atMain", "sessionId", "ubidMain", "xMain"})
    && Get(cookies, "atMain") == Str(a) && Get(cookies, "sessionId") == Str(s)
    && Get(cookies, "ubidMain") == Str(u) && Get(cookies, "xMain") == Str(x)
    && Plain(a) && Plain(s) && Plain(u) && Plain(x)
  }

  /** Every entry of such a record is one of the four fields, holding its value. */
  lemma FourEntries(cookies: Record, a: string, s: string, u: string, x: string)
    requires FourPlainFields(cookies, a, s, u, x)
    ensures cookies != []
    ensures forall i :: 0 <= i < |cookies| ==>
      || cookies[i] == ("atMain", Str(a)) || cookies[i] == ("sessionId", Str(s))
      || cookies[i] == ("ubidMain", Str(u)) || cookies[i] == ("xMain", Str(x))
  {
    assert Has(cookies, "atMain");
    forall i | 0 <= i < |cookies|
      ensures || cookies[i] == ("atMain", Str(a)) || cookies[i] == ("sessionId", Str(s))
              || cookies[i] == ("ubidMain", Str(u)) || cookies[i] == ("xMain", Str(x))
    {
      GetEntry(cookies, i);
    }
  }

  /** Such a record serializes to plain cookies. */
  lemma FourPlainCookies(cookies: Record, a: string, s: string, u: string, x: string)
    requires FourPlainFields(cookies, a, s, u, x)
    ensures cookies != [] && PlainCookies(cookies)
  {
    FourEntries(cookies, a, s, u, x);
    KebabNames();
    PlainNames();
  }

  /** In such a record each cookie name comes from one field only. */
  lemma FourNamedOnly(cookies: Record, a: string, s: string, u: string, x: string)
    requires FourPlainFields(cookies, a, s, u, x)
    ensures NamedOnly(cookies, "atMain", "at-main") && NamedOnly(cookies, "sessionId", "session-id")
    ensures NamedOnly(cookies, "ubidMain", "ubid-main") && NamedOnly(cookies, "xMain", "x-main")
  {
    FourEntries(cookies, a, s, u, x);
    KebabNames();
    assert |"at-main"| == 7 && |"session-id"| == 10 && |"ubid-main"| == 9 && |"x-main"| == 6;
  }

  /**
   * The round trip holds field by field for any plain record of the four
   * fields, whatever order its keys come in (such as the declaration order of
   * `KindleRequiredCookies`): the parsed object is rebuilt in the parser's order.
   */
  lemma CookieRoundTripFields(cookies: Record, a: string, s: string, u: string, x: string)
    requires FourPlainFields(cookies, a, s, u, x)
    ensures DeserializeCookies(SerializeCookies(cookies)) == Ok(RequiredCookies(Str(a), Str(s), Str(u), Str(x)))
  {
    FourPlainCookies(cookies, a, s, u, x);
    FourNamedOnly(cookies, a, s, u, x);
    SerializeThenCollect(cookies);
    var values := Assigned(cookies, map[]);
    AssignedKey(cookies, map[], "atMain", "at-main");
    AssignedKey(cookies, map[], "sessionId", "session-id");
    AssignedKey(cookies, map[], "ubidMain", "ubid-main");
    AssignedKey(cookies, map[], "xMain", "x-main");
    assert Field(values, "at-main") == Str(a) && Field(values, "session-id") == Str(s);
    assert Field(values, "ubid-main") == Str(u) && Field(values, "x-main") == Str(x);
  }

  // ---------------------------------------------------------------------
  // What the drivers do, as functions

  function CatalogUrl(query: Record): Url
  {
    UrlFor(BooksUrl, query, [])
  }

  /** The catalog endpoint's own parameters have distinct names. */
  lemma BooksUrlUnique()
    ensures UniqueNames(BooksUrl.params)
  {
  }

  /** A catalog URL keeps `BOOKS_URL`'s parameters in their places and appends the query's new ones in query order. */
  lemma CatalogOrder(query: Record)
    ensures CatalogUrl(query).params == Kept(BooksUrl.params, query) + Appended(BooksUrl.params, query)
  {
    BooksUrlUnique();
    ToUrlOrder(BooksUrl, query, []);
  }

  /** The device-registration URL: both parameters carry the device token. */
  function DeviceTokenUrl(token: string): Url
  {
    Url(DeviceTokenBase, [("serialNumber", token), ("deviceType", token)])
  }

  /** `JSON.parse(response.body) as KindleDeviceInfo`. */
  function DecodeDevice(body: Body): (r: Result<DeviceInfo>)
    ensures r.Err? <==> body.Malformed?
    ensures r.Err? ==> r.error == SyntaxError
    ensures r.Ok? ==> r.value.deviceSessionToken == body.deviceSessionToken
  {
    match body
    case Malformed => Err(SyntaxError)
    case Json(_, _, token) => Ok(DeviceInfo(token))
  }

  /** The headers every request of `client` currently carries. */
  function ClientHeaders(client: DefaultHttpClient): map<string, string>
    reads client`sessionId, client`adpSessionId
  {
    RequestHeaders(SerializeCookies(client.cookies), map[], client.sessionId, client.adpSessionId)
  }

  /** A catalog request, known by the query whose URL it fetches. */
  datatype Request = Request(query: Record)

  /** The payloads forwarded for catalog requests, all with the same headers. */
  function Sent(requests: seq<Request>, headers: map<string, string>): (r: seq<Forwarded>)
    ensures |r| == |requests|
    ensures forall i :: 0 <= i < |r| ==> r[i] == Forward(CatalogUrl(requests[i].query), headers)
  {
    seq(|requests|, i requires 0 <= i < |requests| => Forward(CatalogUrl(requests[i].query), headers))
  }

  /** A pagination run: its outcome, the catalog requests it made, and the responses left over. */
  datatype Run = Run(outcome: Result<Fetched>, requests: seq<Request>, rest: seq<Response>)

  /**
   * The `do … while` loop of `baseRequest` from a given state: request the
   * current query's URL, take the next response, append its books, set
   * `paginationToken` from it, and go on while the token is defined and
   * `fetchAllPages` is `true`.
   */
  function Paginate(query: Record, server: seq<Response>, version: Option<string>,
                    books: seq<Book>, requests: seq<Request>): (run: Run)
    ensures |requests| < |run.requests| && |run.rest| <= |server|
    ensures server != [] ==> |run.rest| < |server|
    decreases |server|
  {
    var requests' := requests + [Request(query)];
    if server == [] then Run(Err(TransportError), requests', [])
    else match DecodePage(server[0].cookies, server[0].body, version)
      case Err(e) => Run(Err(e), requests', server[1..])
      case Ok(page) =>
        var books' := books + page.books;
        var query' := SetProp(query, PaginationKey, OfOption(page.paginationToken));
        if Get(query', PaginationKey) != Undefined && Get(query', InternalKey) == Bool(true)
        then Paginate(query', server[1..], version, books', requests')
        else Run(Ok(Fetched(books', page.sessionId)), requests', server[1..])
  }

  /** The state of a client once `fromConfig` is done. */
  datatype Session = Session(cookies: Record, sessionId: Option<string>, adpSessionId: Option<string>, defaultBooks: seq<Book>)

  /** A bootstrap: its outcome, every payload forwarded, and the responses left over. */
  datatype Boot = Boot(outcome: Result<Session>, sent: seq<Forwarded>, rest: seq<Response>)

  /**
   * `fromConfig`: parse the cookies, run one default catalog request on a
   * fresh client, store its session id, exchange the device token, store
   * the adp session token.
   */
  function Bootstrap(config: Config): (b: Boot)
    ensures CookiesOf(config.cookies).Err? ==> b.outcome.Err? && b.sent == []
    ensures b.outcome.Ok? ==> CookiesOf(config.cookies) == Ok(b.outcome.value.cookies) && 2 <= |b.sent|
    ensures |b.rest| <= |config.tlsServer|
  {
    match CookiesOf(config.cookies)
    case Err(e) => Boot(Err(e), [], config.tlsServer)
    case Ok(cookies) =>
      var cookieHeader := SerializeCookies(cookies);
      var run := Paginate(Spread(DefaultQuery, []), config.tlsServer, None, [], []);
      var sent := Sent(run.requests, RequestHeaders(cookieHeader, map[], None, None));
      match run.outcome
      case Err(e) => Boot(Err(e), sent, run.rest)
      case Ok(base) =>
        var sent' := sent + [Forward(DeviceTokenUrl(config.deviceToken),
                                     RequestHeaders(cookieHeader, map[], base.sessionId, None))];
        if run.rest == [] then Boot(Err(TransportError), sent', [])
        else match DecodeDevice(run.rest[0].body)
          case Err(e) => Boot(Err(e), sent', run.rest[1..])
          case Ok(info) =>
            Boot(Ok(Session(cookies, base.sessionId, info.deviceSessionToken, base.books)), sent', run.rest[1..])
  }

  lemma BootstrapOk(config: Config, cookies: Record, run: Run, base: Fetched, info: DeviceInfo)
    requires CookiesOf(config.cookies) == Ok(cookies)
    requires run == Paginate(Spread(DefaultQuery, []), config.tlsServer, None, [], [])
    requires run.outcome == Ok(base) && run.rest != [] && DecodeDevice(run.rest[0].body) == Ok(info)
    ensures Bootstrap(config) == Boot(Ok(Session(cookies, base.sessionId, info.deviceSessionToken, base.books)),
      Sent(run.requests, RequestHeaders(SerializeCookies(cookies), map[], None, None))
        + [Forward(DeviceTokenUrl(config.deviceToken), RequestHeaders(SerializeCookies(cookies), map[], base.sessionId, None))],
      run.rest[1..])
  {
  }

  /** A catalog run that fails ends the bootstrap with its error, after its requests only. */
  lemma BootstrapRunFails(config: Config, cookies: Record, run: Run)
    requires CookiesOf(config.cookies) == Ok(cookies)
    requires run == Paginate(Spread(DefaultQuery, []), config.tlsServer, None, [], []) && run.outcome.Err?
    ensures Bootstrap(config) == Boot(Err(run.outcome.error), Sent(run.requests, RequestHeaders(SerializeCookies(cookies), map[], None, None)), run.rest)
  {
  }

  /** After a catalog run that succeeds, the device-token request follows, carrying the run's session id. */
  lemma BootstrapRunSucceeds(config: Config, cookies: Record, run: Run)
    requires CookiesOf(config.cookies) == Ok(cookies)
    requires run == Paginate(Spread(DefaultQuery, []), config.tlsServer, None, [], []) && run.outcome.Ok?
    ensures var b, c := Bootstrap(config), SerializeCookies(cookies);
      && b.sent == Sent(run.requests, RequestHeaders(c, map[], None, None))
           + [Forward(DeviceTokenUrl(config.deviceToken), RequestHeaders(c, map[], run.outcome.value.sessionId, None))]
      && (run.rest == [] ==> b.outcome == Err(TransportError) && b.rest == [])
      && (run.rest != [] ==> b.rest == run.rest[1..])
      && (run.rest != [] && run.rest[0].body.Malformed? ==> b.outcome == Err(SyntaxError))
      && (run.rest != [] && run.rest[0].body.Json? ==>
            b.outcome == Ok(Session(cookies, run.outcome.value.sessionId, run.rest[0].body.deviceSessionToken, run.outcome.value.books)))
  {
  }

  /** One turn of the loop that got a page: go on with the updated query, or stop with the books so far. */
  lemma PaginateStep(q: Record, server: seq<Response>, version: Option<string>, books: seq<Book>, requests: seq<Request>, page: Page)
    requires server != [] && DecodePage(server[0].cookies, server[0].body, version) == Ok(page)
    ensures var q' := SetProp(q, PaginationKey, OfOption(page.paginationToken));
      Paginate(q, server, version, books, requests) ==
        if Get(q', PaginationKey) != Undefined && Get(q', InternalKey) == Bool(true)
        then Paginate(q', server[1..], version, books + page.books, requests + [Request(q)])
        else Run(Ok(Fetched(books + page.books, page.sessionId)), requests + [Request(q)], server[1..])
  {
  }

  /** One turn of the loop that got no page: the run ends with that error. */
  lemma PaginateFail(q: Record, server: seq<Response>, version: Option<string>, books: seq<Book>, requests: seq<Request>, e: Error)
    requires server == [] ==> e == TransportError
    requires server != [] ==> DecodePage(server[0].cookies, server[0].body, version) == Err(e)
    ensures Paginate(q, server, version, books, requests)
      == Run(Err(e), requests + [Request(q)], if server == [] then [] else server[1..])
  {
  }

  /** One catalog request is one forwarded payload. */
  lemma SentOne(q: Record, headers: map<string, string>)
    ensures Sent([Request(q)], headers) == [Forward(CatalogUrl(q), headers)]
  {
  }

  /** Forwarding one more catalog request extends the log by one payload. */
  lemma SentAppend(log: seq<Forwarded>, requests: seq<Request>, q: Record, headers: map<string, string>)
    ensures log + Sent(requests + [Request(q)], headers) == (log + Sent(requests, headers)) + [Forward(CatalogUrl(q), headers)]
  {
    assert Sent(requests + [Request(q)], headers) == Sent(requests, headers) + [Forward(CatalogUrl(q), headers)];
  }

  // ---------------------------------------------------------------------
  // The client

  class Kindle {
    /** The books of the bootstrap's catalog request, kept so the first default listing needs no request. */
    const defaultBooks: seq<Book>
    const client: DefaultHttpClient
    var options: Options

    constructor (options: Options, client: DefaultHttpClient, prePopulatedBooks: Option<seq<Book>>)
      ensures this.options == options && this.client == client
      ensures defaultBooks == if prePopulatedBooks.Some? then prePopulatedBooks.value else []
    {
      this.defaultBooks := if prePopulatedBooks.Some? then prePopulatedBooks.value else [];
      this.client := client;
      this.options := options;
    }

    static method FromConfig(config: Config) returns (r: Result<Kindle>)
      ensures var boot := Bootstrap(config);
        && (r.Ok? <==> boot.outcome.Ok?)
        && (r.Err? ==> r.error == boot.outcome.error)
        && (r.Ok? ==>
              var k, s := r.value, boot.outcome.value;
              && fresh(k) && fresh(k.client)
              && k.defaultBooks == s.defaultBooks
              && k.options == Options(config.(cookies := CookieObject(s.cookies)), s.sessionId)
              && k.client.cookies == s.cookies
              && k.client.sessionId == s.sessionId
              && k.client.adpSessionId == s.adpSessionId
              && k.client.sent == boot.sent
              && k.client.pending == boot.rest)
    {
      var cookies :- CookiesOf(config.cookies);
      var client := new DefaultHttpClient(cookies, config.tlsServer);
      ghost var run := Paginate(Spread(DefaultQuery, []), config.tlsServer, None, [], []);
      var base :- BaseRequest(client, None, []);
      ghost var log := client.sent;
      assert log == Sent(run.requests, RequestHeaders(SerializeCookies(cookies), map[], None, None));
      client.UpdateSession(base.sessionId);
      var deviceInfo :- DeviceToken(client, config.deviceToken);
      client.UpdateAdpSession(deviceInfo.deviceSessionToken);
      BootstrapOk(config, cookies, run, base, deviceInfo);
      assert client.sent == log + [Forward(DeviceTokenUrl(config.deviceToken), RequestHeaders(SerializeCookies(cookies), map[], base.sessionId, None))];
      var kindle := new Kindle(Options(config.(cookies := CookieObject(cookies)), base.sessionId), client, Some(base.books));
      r := Ok(kindle);
    }

    /** `deviceToken`: one request to the device-registration endpoint. */
    static method DeviceToken(client: DefaultHttpClient, token: string) returns (r: Result<DeviceInfo>)
      modifies client`pending, client`sent
      ensures client.sent == old(client.sent) + [Forward(DeviceTokenUrl(token), ClientHeaders(client))]
      ensures old(client.pending) == [] ==> r == Err(TransportError) && client.pending == []
      ensures old(client.pending) != [] ==>
        r == DecodeDevice(old(client.pending)[0].body) && client.pending == old(client.pending)[1..]
    {
      var response :- client.Request(DeviceTokenUrl(token), map[]);
      r := DecodeDevice(response.body);
    }

    /** `baseRequest`: the pagination loop over the defaults merged with `query`. */
    static method BaseRequest(client: DefaultHttpClient, version: Option<string>, query: Record) returns (r: Result<Fetched>)
      modifies client`pending, client`sent
      ensures var run := Paginate(Spread(DefaultQuery, query), old(client.pending), version, [], []);
        && r == run.outcome
        && client.pending == run.rest
        && client.sent == old(client.sent) + Sent(run.requests, ClientHeaders(client))
    {
      r := Pages(client, version, Spread(DefaultQuery, query));
    }

    /** The `do … while` loop itself, from the merged query. */
    static method Pages(client: DefaultHttpClient, version: Option<string>, query: Record) returns (r: Result<Fetched>)
      modifies client`pending, client`sent
      ensures var run := Paginate(query, old(client.pending), version, [], []);
        && r == run.outcome
        && client.pending == run.rest
        && client.sent == old(client.sent) + Sent(run.requests, ClientHeaders(client))
    {
      var q := query;
      var allBooks: seq<Book> := [];
      var latestSessionId: Option<string> := None;
      var more := true;
      ghost var requests: seq<Request> := [];
      ghost var run := Paginate(q, client.pending, version, [], []);
      ghost var headers := ClientHeaders(client);
      while more
        invariant headers == ClientHeaders(client)
        invariant client.sent == old(client.sent) + Sent(requests, headers)
        invariant more ==> Paginate(q, client.pending, version, allBooks, requests) == run
        invariant !more ==> run == Run(Ok(Fetched(allBooks, latestSessionId)), requests, client.pending)
        decreases more, |client.pending|
      {
        var url := ToUrl(BooksUrl, q, []);
        SentAppend(old(client.sent), requests, q, headers);
        ghost var server := client.pending;
        var fetched := FetchBooks.FetchBooks(client, url, version);
        if fetched.Err? {
          PaginateFail(q, server, version, allBooks, requests, fetched.error);
          return fetched.PropagateFailure();
        }
        var page := fetched.value;
        PaginateStep(q, server, version, allBooks, requests, page);
        latestSessionId := page.sessionId;
        allBooks := allBooks + page.books;
        requests := requests + [Request(q)];
        q := SetProp(q, PaginationKey, OfOption(page.paginationToken));
        more := Get(q, PaginationKey) != Undefined && Get(q, InternalKey) == Bool(true);
      }
      r := Ok(Fetched(allBooks, latestSessionId));
    }

    /** `books()`: one pagination run; only `options.sessionId` records the new session id. */
    method Books(query: Record) returns (r: Result<seq<Book>>)
      modifies this`options, client`pending, client`sent
      ensures var run := Paginate(Spread(DefaultQuery, query), old(client.pending), None, [], []);
        && client.pending == run.rest
        && client.sent == old(client.sent) + Sent(run.requests, ClientHeaders(client))
        && (run.outcome.Ok? ==>
              r == Ok(run.outcome.value.books) && options == old(options).(sessionId := run.outcome.value.sessionId))
        && (run.outcome.Err? ==> r == Err(run.outcome.error) && options == old(options))
    {
      var result :- BaseRequest(client, None, query);
      options := options.(sessionId := result.sessionId);
      r := Ok(result.books);
    }
  }
}
