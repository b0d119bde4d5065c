/**
 * `DefaultHttpClient`: the holder of the two session tokens and the cookie
 * set, the assembly of the headers every request carries, and the cookie
 * serializer. The TLS-impersonating proxy it talks to is modelled as the
 * sequence of responses it will give, consumed one per request, and the
 * log of the payloads it was asked to forward.
 */
module HttpClient {
  import opened Js
  import opened Strings
  import opened UrlSearchParams

  /** One entry of a catalog page's `itemsList` (`KindleBookData`); the core never looks inside it. */
  datatype BookData = BookData(asin: string, title: string)

  /**
   * A response body as `JSON.parse` leaves it: not JSON at all, or an object
   * of which only the fields the core reads are kept (a missing one is None).
   */
  datatype Body =
    | Malformed
    | Json(itemsList: Option<seq<BookData>>, paginationToken: Option<string>, deviceSessionToken: Option<string>)

  /** `TLSClientResponseData`: what the proxy returns for one forwarded request. */
  datatype Response = Response(status: int, body: Body, cookies: map<string, string>)

  /** `TLSClientRequestPayload`: what the client asks the proxy to send. */
  datatype Forwarded = Forwarded(
    tlsClientIdentifier: string,
    requestUrl: Url,
    requestMethod: string,
    withDebug: bool,
    headers: map<string, string>)

  const UserAgent := "Mozilla/5.0 (Macintosh; Intel Mac OS X 10_15_7) AppleWebKit/537.36 (KHTML, like Gecko) Chrome/112.0.0.0 Safari/537.36"
  const AcceptLanguage := "en-US,en;q=0.9,ko-KR;q=0.8,ko;q=0.7"
  const SessionHeader := "x-amzn-sessionid"
  const AdpHeader := "x-adp-session-token"

  /** JavaScript truthiness of an optional string: set and not empty. */
  predicate Truthy(s: Option<string>)
  {
    s.Some? && s.value != ""
  }

  /** The headers `_request` sends before any session header is added. */
  function BaseHeaders(cookieHeader: string): map<string, string>
  {
    map["Cookie" := cookieHeader, "Accept-Language" := AcceptLanguage, "User-Agent" := UserAgent]
  }

  /** `if (token) headers[name] = token`. */
  function WithToken(headers: map<string, string>, name: string, token: Option<string>): map<string, string>
  {
    if Truthy(token) then headers[name := token.value] else headers
  }

  /** The names a truthy token adds. */
  function TokenKeys(name: string, token: Option<string>): set<string>
  {
    if Truthy(token) then {name} else {}
  }

  /**
   * The headers of a forwarded request as a layering: defaults, then the
   * caller's payload headers, then the two session headers.
   */
  function RequestHeaders(cookieHeader: string, extra: map<string, string>,
                          sessionId: Option<string>, adpSessionId: Option<string>): (h: map<string, string>)
    ensures h.Keys == BaseHeaders(cookieHeader).Keys + extra.Keys
      + TokenKeys(SessionHeader, sessionId) + TokenKeys(AdpHeader, adpSessionId)
    ensures SessionHeader in h <==> Truthy(sessionId) || SessionHeader in extra
    ensures Truthy(sessionId) ==> h[SessionHeader] == sessionId.value
    ensures !Truthy(sessionId) && SessionHeader in extra ==> h[SessionHeader] == extra[SessionHeader]
    ensures AdpHeader in h <==> Truthy(adpSessionId) || AdpHeader in extra
    ensures Truthy(adpSessionId) ==> h[AdpHeader] == adpSessionId.value
    ensures !Truthy(adpSessionId) && AdpHeader in extra ==> h[AdpHeader] == extra[AdpHeader]
    ensures forall k {:trigger extra[k]} :: k in extra && k != SessionHeader && k != AdpHeader ==> h[k] == extra[k]
    ensures h["Cookie"] == if "Cookie" in extra then extra["Cookie"] else cookieHeader
    ensures h["Accept-Language"] == if "Accept-Language" in extra then extra["Accept-Language"] else AcceptLanguage
    ensures h["User-Agent"] == if "User-Agent" in extra then extra["User-Agent"] else UserAgent
  {
    WithToken(WithToken(BaseHeaders(cookieHeader) + extra, SessionHeader, sessionId), AdpHeader, adpSessionId)
  }

  /** The payload sent for `url`: Chrome 112 impersonation, a GET, debug on. */
  function Forward(url: Url, headers: map<string, string>): (p: Forwarded)
  {
    Forwarded("chrome_112", url, "GET", true, headers)
  }

  /** `key.replace(/[A-Z]/g, v => "-" + v.toLowerCase())`, read from the last character back. */
  function Kebab(key: string): string
  {
    if key == [] then [] else Kebab(key[..|key| - 1]) + KebabChar(key[|key| - 1])
  }

  /** What the replacement makes of one character: an upper-case letter becomes "-" and its lower-case form. */
  function KebabChar(c: char): string
  {
    if 'A' <= c <= 'Z' then ['-', (c as int + 32) as char] else [c]
  }

  predicate NoUpper(s: string)
  {
    forall i :: 0 <= i < |s| ==> !('A' <= s[i] <= 'Z')
  }

  /** No upper-case letter survives the replacement. */
  lemma {:induction false} KebabNoUpper(key: string)
    ensures NoUpper(Kebab(key))
    decreases |key|
  {
    if key != [] {
      KebabNoUpper(key[..|key| - 1]);
    }
  }

  /** A key without upper-case letters is left as it is. */
  lemma {:induction false} KebabLower(key: string)
    requires NoUpper(key)
    ensures Kebab(key) == key
    decreases |key|
  {
    if key != [] {
      KebabLower(key[..|key| - 1]);
      assert key == key[..|key| - 1] + [key[|key| - 1]];
    }
  }

  /** The replacement works character by character, so it distributes over concatenation. */
  lemma {:induction false} KebabAppend(a: string, b: string)
    ensures Kebab(a + b) == Kebab(a) + Kebab(b)
    decreases |b|
  {
    if b != [] {
      var b' := b[..|b| - 1];
      assert (a + b)[..|a + b| - 1] == a + b';
      assert (a + b)[|a + b| - 1] == b[|b| - 1];
      KebabAppend(a, b');
      assert Kebab(a + b) == Kebab(a + b') + KebabChar(b[|b| - 1]);
      assert Kebab(b) == Kebab(b') + KebabChar(b[|b| - 1]);
      Assoc(Kebab(a), Kebab(b'), KebabChar(b[|b| - 1]));
    } else {
      assert a + b == a;
    }
  }

  /** `word` and then a capitalised `rest`: the capital becomes "-" and its lower-case form. */
  lemma {:induction false} KebabCamel(word: string, c: char, rest: string)
    requires NoUpper(word) && NoUpper(rest) && 'A' <= c <= 'Z'
    ensures Kebab(word + [c] + rest) == word + ['-', (c as int + 32) as char] + rest
  {
    KebabAppend(word + [c], rest);
    KebabAppend(word, [c]);
    KebabLower(word);
    KebabLower(rest);
    assert [c][..0] == [];
    assert Kebab([c]) == ['-', (c as int + 32) as char];
  }

  /** The cookie names of the four required fields. */
  lemma KebabNames()
    ensures Kebab("atMain") == "at-main" && Kebab("sessionId") == "session-id"
    ensures Kebab("ubidMain") == "ubid-main" && Kebab("xMain") == "x-main"
  {
    KebabAtMain();
    KebabSessionId();
    KebabUbidMain();
    KebabXMain();
  }

  lemma KebabAtMain()
    ensures Kebab("atMain") == "at-main"
  {
    KebabCamel("at", 'M', "ain");
    assert "at" + ['M'] + "ain" == "atMain";
  }

  lemma KebabSessionId()
    ensures Kebab("sessionId") == "session-id"
  {
    KebabCamel("session", 'I', "d");
    assert "session" + ['I'] + "d" == "sessionId";
  }

  lemma KebabUbidMain()
    ensures Kebab("ubidMain") == "ubid-main"
  {
    KebabCamel("ubid", 'M', "ain");
    assert "ubid" + ['M'] + "ain" == "ubidMain";
  }

  lemma KebabXMain()
    ensures Kebab("xMain") == "x-main"
  {
    KebabCamel("x", 'M', "ain");
    assert "x" + ['M'] + "ain" == "xMain";
  }

  /** `kebab(key)=value` for every cookie, in the record's order. */
  function CookiePairs(cookies: seq<Entry>): (r: seq<string>)
    ensures |r| == |cookies|
    ensures forall i :: 0 <= i < |r| ==> r[i] == Kebab(cookies[i].0) + "=" + ToText(cookies[i].1)
  {
    if cookies == [] then []
    else
      var rest := CookiePairs(cookies[1..]);
      assert forall i :: 0 < i <= |rest| ==> cookies[1..][i - 1] == cookies[i];
      [Kebab(cookies[0].0) + "=" + ToText(cookies[0].1)] + rest
  }

  /** `serializeCookies`: the pairs joined with "; ", then trimmed. */
  function SerializeCookies(cookies: Record): (header: string)
    ensures Trimmed(header)
  {
    Trim(Join(CookiePairs(cookies), "; "))
  }

  class DefaultHttpClient {
    const cookies: Record
    var sessionId: Option<string>
    var adpSessionId: Option<string>
    /** The responses the proxy will give, in order. */
    var pending: seq<Response>
    /** The payloads forwarded so far, in order. */
    var sent: seq<Forwarded>

    constructor (cookies: Record, server: seq<Response>)
      ensures this.cookies == cookies
      ensures sessionId == None && adpSessionId == None
      ensures pending == server && sent == []
    {
      this.cookies := cookies;
      sessionId, adpSessionId := None, None;
      pending, sent := server, [];
    }

    /** The header object `_request` assembles: defaults, the payload's headers, then the truthy session tokens. */
    method AssembleHeaders(payloadHeaders: map<string, string>) returns (headers: map<string, string>)
      ensures headers == RequestHeaders(SerializeCookies(cookies), payloadHeaders, sessionId, adpSessionId)
    {
      headers := BaseHeaders(SerializeCookies(cookies)) + payloadHeaders;
      if Truthy(sessionId) {
        headers := headers[SessionHeader := sessionId.value];
      }
      if Truthy(adpSessionId) {
        headers := headers[AdpHeader := adpSessionId.value];
      }
    }

    /**
     * `request(url, payload)`: forward one GET with the assembled headers and
     * take the proxy's next response; with none left, the call fails.
     */
    method Request(url: Url, payloadHeaders: map<string, string>) returns (r: Result<Response>)
      modifies this`pending, this`sent
      ensures sent == old(sent) + [Forward(url, RequestHeaders(SerializeCookies(cookies), payloadHeaders, sessionId, adpSessionId))]
      ensures old(pending) == [] ==> r == Err(TransportError) && pending == []
      ensures old(pending) != [] ==> r == Ok(old(pending)[0]) && pending == old(pending)[1..]
    {
      var headers := AssembleHeaders(payloadHeaders);
      sent := sent + [Forward(url, headers)];
      if pending == [] {
        r := Err(TransportError);
      } else {
        r := Ok(pending[0]);
        pending := pending[1..];
      }
    }

    method UpdateSession(id: Option<string>)
      modifies this`sessionId
      ensures GetSessionId() == id
      ensures GetAdpSessionId() == old(GetAdpSessionId())
    {
      sessionId := id;
    }

    method UpdateAdpSession(id: Option<string>)
      modifies this`adpSessionId
      ensures GetAdpSessionId() == id
      ensures GetSessionId() == old(GetSessionId())
    {
      adpSessionId := id;
    }

    function GetSessionId(): Option<string>
      reads this`sessionId
    {
      sessionId
    }

    function GetAdpSessionId(): Option<string>
      reads this`adpSessionId
    {
      adpSessionId
    }

    /** `extractSetCookies`: the response's cookies, as they came. */
    function ExtractSetCookies(response: Response): (c: map<string, string>)
    {
      response.cookies
    }
  }
}
