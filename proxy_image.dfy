/** app/api/proxy-image/route.ts: the same-origin image proxy. A request is
    answered from its `url` parameter and, once that passes the domain
    check, from what the upstream fetch gave back. The fetch is a function
    parameter; the proxy neither resizes nor re-encodes anything. */
module ProxyImage {
  import opened Wrappers
  import opened Text
  import opened Types

  /** The roster service's own host: only requests to it carry the token. */
  const PrimaryDomain: string := "student-admin.harbour.space"
  /** The public object storage the photos may also live in. */
  const StorageDomain: string := "digitaloceanspaces.com"
  const UserAgent: string := "Student-ID-Generator/1.0"
  /** One year, immutable: how long a proxied image may be cached. */
  const CacheControl: string := "public, max-age=31536000, immutable"
  const DefaultContentType: string := "image/jpeg"

  /** Header names. */
  const ContentType: string := "Content-Type"
  const CacheControlHeader: string := "Cache-Control"
  const AllowOrigin: string := "Access-Control-Allow-Origin"
  const AllowMethods: string := "Access-Control-Allow-Methods"
  const AllowHeaders: string := "Access-Control-Allow-Headers"
  const UserAgentHeader: string := "User-Agent"
  const AccessToken: string := "Access-Token"

  type Bytes = seq<bv8>

  datatype Body = ErrorJson(error: string) | Binary(bytes: Bytes) | NoBody

  datatype Response = Response(status: nat, headers: map<string, string>, body: Body)

  /** An outbound fetch: the URL and its headers. */
  datatype Request = Request(url: string, headers: map<string, string>)

  /** What the upstream fetch gives: its status, its `content-type` header and
      its bytes, or an exception (from `fetch` or from reading the body). */
  datatype Upstream = Answered(status: nat, contentType: Option<string>, bytes: Bytes) | Threw

  /** `response.ok`. */
  predicate IsOk(status: nat) {
    200 <= status <= 299
  }

  /** The statuses `NextResponse.json` can answer with. The Fetch Standard's
      `Response` initialisation throws a `RangeError` for a status outside
      200..599, and a `TypeError` for a null-body status (204, 205, 304)
      that is given a body, as the JSON error body is. */
  predicate IsConstructible(status: nat) {
    200 <= status <= 599 && status != 204 && status != 205 && status != 304
  }

  /** `allowedDomains.some(domain => imageUrl.includes(domain))`: a test on
      the whole URL text, not on its host. */
  predicate IsAllowedDomain(imageUrl: string) {
    Contains(imageUrl, PrimaryDomain) || Contains(imageUrl, StorageDomain)
  }

  /** `NextResponse.json({ error }, { status })`. */
  function ErrorResponse(status: nat, message: string): Response {
    Response(status, map[ContentType := "application/json"], ErrorJson(message))
  }

  const InternalError: Response := ErrorResponse(500, "Internal server error")

  /** The headers of a proxied image. */
  function ImageHeaders(contentType: string): map<string, string> {
    map[
      ContentType := contentType,
      CacheControlHeader := CacheControl,
      AllowOrigin := "*",
      AllowMethods := "GET",
      AllowHeaders := ContentType]
  }

  /** The answer once the upstream has replied: a failed fetch is a 500; a
      status that is not ok is passed on with a fixed message (a status the
      `Response` constructor refuses lands in the catch-all 500); an ok one
      gives the bytes unchanged with the upstream content type, or
      `image/jpeg` when it has none. */
  function Respond(upstream: Upstream): (r: Response)
    ensures upstream.Threw? ==> r == InternalError
    ensures upstream.Answered? && !IsOk(upstream.status) ==>
              r == if IsConstructible(upstream.status) then ErrorResponse(upstream.status, "Failed to fetch image") else InternalError
    ensures upstream.Answered? && IsOk(upstream.status) ==>
              && r.status == 200 && r.body == Binary(upstream.bytes)
              && ContentType in r.headers && r.headers[ContentType] == (if Truthy(upstream.contentType) then upstream.contentType.value else DefaultContentType)
              && CacheControlHeader in r.headers && r.headers[CacheControlHeader] == CacheControl
              && AllowOrigin in r.headers && r.headers[AllowOrigin] == "*"
  {
    match upstream
    case Threw => InternalError
    case Answered(status, contentType, bytes) =>
      if !IsOk(status) then
        if IsConstructible(status) then ErrorResponse(status, "Failed to fetch image") else InternalError
      else
        var ct := if Truthy(contentType) then contentType.value else DefaultContentType;
        Response(200, ImageHeaders(ct), Binary(bytes))
  }

  /** The outbound headers: the user agent always, and the token (or `''`
      when it is not configured) only for a URL that mentions the primary
      domain. */
  method BuildHeaders(imageUrl: string, apiToken: Option<string>) returns (headers: map<string, string>)
    ensures UserAgentHeader in headers && headers[UserAgentHeader] == UserAgent
    ensures AccessToken in headers <==> Contains(imageUrl, PrimaryDomain)
    ensures AccessToken in headers ==> headers[AccessToken] == apiToken.GetOr("")
    ensures headers.Keys <= {UserAgentHeader, AccessToken}
  {
    headers := map[UserAgentHeader := UserAgent];
    if Contains(imageUrl, PrimaryDomain) {
      headers := headers[AccessToken := apiToken.GetOr("")];
    }
  }

  /** `GET`. `urlParam` is `searchParams.get('url')` and `fetch` what the
      upstream answers to a request. Besides the response, `sent` is the
      request made upstream, if any: a missing or empty `url` is a 400 and a
      URL outside the two domains a 403, both before anything is fetched;
      otherwise exactly one request goes out and its answer decides the
      response. */
  method Get(urlParam: Option<string>, apiToken: Option<string>, fetch: Request -> Upstream)
    returns (resp: Response, sent: Option<Request>)
    ensures !Truthy(urlParam) ==> resp == ErrorResponse(400, "URL parameter is required") && sent == None
    ensures Truthy(urlParam) && !IsAllowedDomain(urlParam.value) ==>
              resp == ErrorResponse(403, "Invalid image URL domain") && sent == None
    ensures Truthy(urlParam) && IsAllowedDomain(urlParam.value) ==>
              && sent.Some? && sent.value.url == urlParam.value
              && UserAgentHeader in sent.value.headers && sent.value.headers[UserAgentHeader] == UserAgent
              && (AccessToken in sent.value.headers <==> Contains(urlParam.value, PrimaryDomain))
              && (AccessToken in sent.value.headers ==> sent.value.headers[AccessToken] == apiToken.GetOr(""))
              && sent.value.headers.Keys <= {UserAgentHeader, AccessToken}
              && resp == Respond(fetch(sent.value))
  {
    if urlParam == None || urlParam.value == "" {
      return ErrorResponse(400, "URL parameter is required"), None;
    }
    var imageUrl := urlParam.value;
    if !IsAllowedDomain(imageUrl) {
      return ErrorResponse(403, "Invalid image URL domain"), None;
    }
    var headers := BuildHeaders(imageUrl, apiToken);
    var request := Request(imageUrl, headers);
    resp := Respond(fetch(request));
    sent := Some(request);
  }

  /** The messages a client can ever read in an error body: never anything
      from the upstream or from an exception. */
  predicate IsFixedMessage(m: string) {
    m == "URL parameter is required" || m == "Invalid image URL domain"
    || m == "Failed to fetch image" || m == "Internal server error"
  }

  /** Whatever the upstream does, the answer carries bytes exactly when it is
      a 200, the bytes are the upstream's unchanged, and any other answer
      carries one of the fixed messages. */
  lemma RespondBodies(upstream: Upstream)
    ensures var r := Respond(upstream);
            && (r.body.Binary? <==> r.status == 200)
            && (r.body.Binary? ==> upstream.Answered? && r.body.bytes == upstream.bytes)
            && (!r.body.Binary? ==> r.body.ErrorJson? && IsFixedMessage(r.body.error))
            && (r.status == 200 || r.status == 500 || (upstream.Answered? && r.status == upstream.status && !IsOk(r.status)))
  {
  }

  /** Every substring occurrence needs each of its characters in the text. */
  lemma ContainsHasChars(s: string, sub: string, c: char)
    requires Contains(s, sub) && c in sub
    ensures c in s
  {
    ContainsAt(s, sub);
    var i :| OccursAt(s, sub, i);
    var j :| 0 <= j < |sub| && sub[j] == c;
    assert s[i..i + |sub|][j] == s[i + j];
  }

  /** The URL `https://evil.example.com/photo.jpg`, which mentions neither
      domain, is refused. */
  lemma ExampleOtherHostRefused()
    ensures !IsAllowedDomain("https://evil.example.com/photo.jpg")
  {
    var url := "https://evil.example.com/photo.jpg";
    assert 'd' !in url;
    assert 'd' in PrimaryDomain && 'd' in StorageDomain;
    if Contains(url, PrimaryDomain) {
      ContainsHasChars(url, PrimaryDomain, 'd');
    }
    if Contains(url, StorageDomain) {
      ContainsHasChars(url, StorageDomain, 'd');
    }
  }

  /** An upstream `304 Not Modified` is not passed on: the JSON error body
      cannot go with it, the response construction throws, and the catch-all
      answers 500. */
  lemma NotModifiedIsInternalError(contentType: Option<string>, bytes: Bytes)
    ensures Respond(Answered(304, contentType, bytes)) == InternalError
  {
  }

  /** The domain test is on the text: a URL on another host that merely
      mentions the storage domain in its query is let through. */
  lemma QueryMentionPassesCheck()
    ensures IsAllowedDomain("https://evil.example.com/?u=" + StorageDomain)
  {
    var prefix := "https://evil.example.com/?u=";
    var url := prefix + StorageDomain;
    assert OccursAt(url, StorageDomain, |prefix|) by {
      assert url[|prefix|..|prefix| + |StorageDomain|] == StorageDomain;
    }
    ContainsAt(url, StorageDomain);
  }

  /** The token test is on the text too: a URL on another host that mentions
      the primary domain in its query passes the domain check and, by `Get`,
      is fetched with the access token attached. */
  lemma QueryMentionGetsToken()
    ensures var url := "https://evil.example.com/?u=" + PrimaryDomain;
            IsAllowedDomain(url) && Contains(url, PrimaryDomain)
  {
    var prefix := "https://evil.example.com/?u=";
    var url := prefix + PrimaryDomain;
    assert OccursAt(url, PrimaryDomain, |prefix|) by {
      assert url[|prefix|..|prefix| + |PrimaryDomain|] == PrimaryDomain;
    }
    ContainsAt(url, PrimaryDomain);
  }

  /** `OPTIONS`: the preflight answer, always 200 with no body. */
  function Options(): (r: Response)
    ensures r.status == 200 && r.body == NoBody
    ensures AllowOrigin in r.headers && r.headers[AllowOrigin] == "*"
    ensures AllowMethods in r.headers && r.headers[AllowMethods] == "GET, OPTIONS"
  {
    Response(200, map[AllowOrigin := "*", AllowMethods := "GET, OPTIONS", AllowHeaders := ContentType], NoBody)
  }
}
