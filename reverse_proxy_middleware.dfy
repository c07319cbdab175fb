/**
 * The proxy middleware: the translation of an inbound request into the
 * message sent upstream, the relay of the upstream response headers and
 * body, the response cache and the control flow of `Invoke`. Sending over
 * the network is not modelled: `Invoke` is handed the upstream's response.
 */
module ReverseProxy {
  import opened Wrappers
  import opened HttpHeaders
  import opened Uris
  import opened LoadBalancing

  newtype byte = b: int | 0 <= b < 256

  // ---------------------------------------------------------------- methods

  /** `System.Net.Http.HttpMethod`: the seven standard methods, or a custom one carrying its name. */
  datatype HttpMethod = Delete | Get | Head | Options | Post | Put | Trace | Custom(name: string)

  const StandardMethods: seq<HttpMethod> := [Delete, Get, Head, Options, Post, Put, Trace]

  /** The method's name on the wire. */
  function MethodName(m: HttpMethod): string {
    match m
    case Delete => "DELETE"
    case Get => "GET"
    case Head => "HEAD"
    case Options => "OPTIONS"
    case Post => "POST"
    case Put => "PUT"
    case Trace => "TRACE"
    case Custom(s) => s
  }

  /** The folded form of the method's name: what a case-insensitive comparison matches. */
  function FoldedName(m: HttpMethod): string {
    match m
    case Delete => "delete"
    case Get => "get"
    case Head => "head"
    case Options => "options"
    case Post => "post"
    case Put => "put"
    case Trace => "trace"
    case Custom(s) => Fold(s)
  }

  /** Each method's name folds to its folded name. */
  lemma FoldedNameIsFold(m: HttpMethod)
    ensures Fold(MethodName(m)) == FoldedName(m)
  {
    match m
    case Delete => FoldIs("DELETE", "delete");
    case Get => FoldIs("GET", "get");
    case Head => FoldIs("HEAD", "head");
    case Options => FoldIs("OPTIONS", "options");
    case Post => FoldIs("POST", "post");
    case Put => FoldIs("PUT", "put");
    case Trace => FoldIs("TRACE", "trace");
    case Custom(_) =>
  }

  /** `HttpMethods.IsGet(s)` and its siblings: `s` names `m`, ignoring case. */
  predicate MethodIs(s: string, m: HttpMethod) {
    Fold(s) == FoldedName(m)
  }

  /** `GetHTTPMethodFromString`: the outbound method for the inbound method string. */
  function GetHttpMethod(s: string): (r: HttpMethod)
    ensures forall m :: m in StandardMethods ==> (r == m <==> MethodIs(s, m))
    ensures r.Custom? <==> forall m :: m in StandardMethods ==> !MethodIs(s, m)
    ensures r.Custom? ==> r.name == s
  {
    if MethodIs(s, Delete) then Delete
    else if MethodIs(s, Get) then Get
    else if MethodIs(s, Head) then Head
    else if MethodIs(s, Options) then Options
    else if MethodIs(s, Post) then Post
    else if MethodIs(s, Put) then Put
    else if MethodIs(s, Trace) then Trace
    else Custom(s)
  }

  /** Matching a standard method ignores case: any spelling of its name selects it. */
  lemma MethodMatchIgnoresCase(s: string, m: HttpMethod)
    requires m in StandardMethods
    ensures GetHttpMethod(s) == m <==> SameIgnoringCase(s, MethodName(m))
  {
    FoldedNameIsFold(m);
  }

  /** Mapping a method's own name gives back the method. */
  lemma MethodNameRoundTrip(m: HttpMethod)
    requires m.Custom? ==> forall n :: n in StandardMethods ==> !MethodIs(m.name, n)
    ensures GetHttpMethod(MethodName(m)) == m
  {
    FoldedNameIsFold(m);
  }

  /** The body test of `CopyFromOriginalRequestContentAndHeaders`: none of GET, HEAD, DELETE, TRACE. */
  function CarriesBody(methodName: string): (r: bool)
    ensures r <==> GetHttpMethod(methodName) !in {Get, Head, Delete, Trace}
  {
    !MethodIs(methodName, Get) && !MethodIs(methodName, Head) && !MethodIs(methodName, Delete) && !MethodIs(methodName, Trace)
  }

  // ------------------------------------------------------ outbound request

  /** The inbound body stream; it is handed on, never read. */
  datatype BodyStream = BodyStream(bytes: seq<byte>)

  /**
   * What the middleware reads from `HttpContext.Request`: the method string,
   * `Path.Value` (an empty path has no value; the query string is not part
   * of it), the headers in enumeration order and the body stream.
   */
  datatype InboundRequest = InboundRequest(methodName: string, path: string, headers: seq<Header>, body: BodyStream)

  /** A `StreamContent` over a body stream, with its content headers. */
  datatype Content = StreamContent(body: BodyStream, headers: HeaderMap)

  /** An `HttpRequestMessage` under construction. */
  class RequestMessage {
    var httpMethod: HttpMethod
    var requestUri: Option<string>
    var headers: HeaderMap
    var content: Option<Content>

    /** `new HttpRequestMessage()`: GET, no URI, no headers, no content. */
    constructor ()
      ensures httpMethod == Get && requestUri == None && headers == map[] && content == None
    {
      httpMethod := Get;
      requestUri := None;
      headers := map[];
      content := None;
    }
  }

  /**
   * The content of the outbound message after the copy from the inbound
   * request, given the content `prior` it had before: a fresh stream content
   * when the method carries a body, then every inbound header offered to the
   * content headers, which keep those `accepts` admits.
   */
  function OutboundContent(prior: Option<Content>, request: InboundRequest, accepts: string -> bool): (r: Option<Content>)
    ensures r.None? <==> !CarriesBody(request.methodName) && prior.None?
    ensures CarriesBody(request.methodName) ==> r.value.body == request.body
    ensures !CarriesBody(request.methodName) && prior.Some? ==> r.value.body == prior.value.body
  {
    var c := if CarriesBody(request.methodName) then Some(StreamContent(request.body, map[])) else prior;
    match c
    case None => None
    case Some(sc) => Some(sc.(headers := TryAddAll(sc.headers, request.headers, accepts)))
  }

  /** GET, HEAD, DELETE and TRACE requests forward neither a body nor any inbound header. */
  lemma BodilessRequestForwardsNothing(request: InboundRequest, accepts: string -> bool)
    requires MethodIs(request.methodName, Get) || MethodIs(request.methodName, Head)
          || MethodIs(request.methodName, Delete) || MethodIs(request.methodName, Trace)
    ensures OutboundContent(None, request, accepts) == None
  {
  }

  /**
   * Any other request forwards its body stream unchanged, and exactly the
   * inbound headers the content headers accept, each with its own values.
   */
  lemma BodyRequestForwardsContent(request: InboundRequest, accepts: string -> bool)
    requires CarriesBody(request.methodName) && DistinctNames(request.headers)
    ensures var c := OutboundContent(None, request, accepts);
      && c.Some?
      && c.value.body == request.body
      && c.value.headers.Keys == AcceptedNames(request.headers, accepts)
      && forall i :: 0 <= i < |request.headers| && accepts(request.headers[i].name) ==>
           c.value.headers[Fold(request.headers[i].name)] == request.headers[i].values
  {
    TryAddAllKeys(request.headers, accepts);
    forall i | 0 <= i < |request.headers| && accepts(request.headers[i].name)
      ensures TryAddAll(map[], request.headers, accepts)[Fold(request.headers[i].name)] == request.headers[i].values
    {
      TryAddAllDistinct(request.headers, accepts, i);
    }
  }

  /** `CopyFromOriginalRequestContentAndHeaders`. */
  method CopyFromOriginalRequestContentAndHeaders(request: InboundRequest, message: RequestMessage, accepts: string -> bool)
    modifies message`content
    ensures message.content == OutboundContent(old(message.content), request, accepts)
  {
    if CarriesBody(request.methodName) {
      message.content := Some(StreamContent(request.body, map[]));
    }
    ghost var start := message.content;
    var i := 0;
    while i < |request.headers|
      invariant 0 <= i <= |request.headers|
      invariant message.content == match start
        case None => None
        case Some(sc) => Some(sc.(headers := TryAddAll(sc.headers, request.headers[..i], accepts)))
    {
      if message.content.Some? {
        var c := message.content.value;
        message.content := Some(c.(headers := TryAdd(c.headers, request.headers[i], accepts)));
      }
      assert request.headers[..i + 1][..i] == request.headers[..i];
      i := i + 1;
    }
    assert request.headers[..i] == request.headers;
  }

  /** Setting `Host` on an empty header collection files it under `host`. */
  lemma HostHeaderOnly(values: seq<string>)
    ensures Assign(map[], Header("Host", values)) == map["host" := values]
  {
    FoldIs("Host", "host");
  }

  /** `CreateTargetMessage`: the message sent upstream for `request` and `targetUri`. */
  method CreateTargetMessage(request: InboundRequest, targetUri: string, accepts: string -> bool)
    returns (message: RequestMessage)
    ensures fresh(message)
    ensures message.requestUri == Some(targetUri)
    ensures message.headers == map["host" := [Host(targetUri)]]
    ensures message.httpMethod == GetHttpMethod(request.methodName)
    ensures message.content == OutboundContent(None, request, accepts)
  {
    message := new RequestMessage();
    CopyFromOriginalRequestContentAndHeaders(request, message, accepts);
    message.requestUri := Some(targetUri);
    HostHeaderOnly([Host(targetUri)]);
    message.headers := Assign(message.headers, Header("Host", [Host(targetUri)]));
    message.httpMethod := GetHttpMethod(request.methodName);
  }

  /**
   * The configured downstreams put `localhost` in the outbound Host header
   * for every path the proxy forwards: `PathString.Value` starts with `/`.
   */
  lemma DefaultTargetHost(i: int, path: string)
    requires 0 <= i < |DefaultDownstreams|
    requires path == "" || path[0] == '/'
    ensures Host(DefaultDownstreams[i] + path) == "localhost"
  {
    if i == 0 {
      assert DefaultDownstreams[0] == "http" + "://localhost:" + "5118";
      LocalTargetHost("http", "5118", path);
    } else {
      assert DefaultDownstreams[1] == "https" + "://localhost:" + "7069";
      LocalTargetHost("https", "7069", path);
    }
  }

  /** The host of `scheme://localhost:port` followed by a path. */
  lemma LocalTargetHost(scheme: string, port: string, path: string)
    requires scheme == "http" || scheme == "https"
    ensures Host(scheme + "://localhost:" + port + path) == "localhost"
  {
    assert scheme + "://localhost:" + port + path == scheme + "://" + "localhost" + ":" + (port + path);
    forall j ensures !SeparatorAt(scheme + ":", j) {
    }
    HostOfAuthority(scheme, "localhost", port + path);
  }

  // ------------------------------------------------------- upstream response

  /** A parsed `Content-Type` header. */
  datatype MediaTypeHeader = MediaTypeHeader(mediaType: string)

  /** The upstream's content: content headers, parsed content type and body bytes. */
  datatype ResponseContent = ResponseContent(headers: seq<Header>, contentType: Option<MediaTypeHeader>, bytes: seq<byte>)

  /** An `HttpResponseMessage`; no content reads as an empty content without headers. */
  datatype ResponseMessage = ResponseMessage(statusCode: int, headers: seq<Header>, content: Option<ResponseContent>)

  function ContentHeaders(upstream: ResponseMessage): seq<Header> {
    if upstream.content.Some? then upstream.content.value.headers else []
  }

  function ResponseBytes(upstream: ResponseMessage): seq<byte> {
    if upstream.content.Some? then upstream.content.value.bytes else []
  }

  /** The header the relay drops, as the response dictionary files it. */
  const TransferEncoding := "transfer-encoding"

  /** The two copy loops of `CopyFromTargetResponseHeaders`: response headers, then content headers. */
  function Merged(h: HeaderMap, upstream: ResponseMessage): (r: HeaderMap)
    ensures r.Keys == h.Keys + Names(upstream.headers) + Names(ContentHeaders(upstream))
  {
    AssignAllKeys(h, upstream.headers);
    AssignAllKeys(AssignAll(h, upstream.headers), ContentHeaders(upstream));
    AssignAll(AssignAll(h, upstream.headers), ContentHeaders(upstream))
  }

  /** `CopyFromTargetResponseHeaders`: the caller's response headers after the relay. */
  function RelayHeaders(h: HeaderMap, upstream: ResponseMessage): (r: HeaderMap)
    ensures TransferEncoding !in r
    ensures r.Keys == Merged(h, upstream).Keys - {TransferEncoding}
    ensures forall k :: k in r ==> r[k] == Merged(h, upstream)[k]
  {
    Merged(h, upstream) - {TransferEncoding}
  }

  /**
   * The copy loops: a name is present iff it was before or upstream sends it,
   * headers upstream does not name are untouched, and the last content header
   * of a name wins over earlier ones and over any response header of that name.
   */
  lemma MergedProperties(h: HeaderMap, upstream: ResponseMessage)
    ensures var m, rh, ch := Merged(h, upstream), upstream.headers, ContentHeaders(upstream);
      && (forall k :: k in m <==> k in h || k in Names(rh) || k in Names(ch))
      && (forall k :: k in h && k !in Names(rh) && k !in Names(ch) ==> m[k] == h[k])
      && (forall i :: 0 <= i < |ch| && LastOfName(ch, i) ==> m[Fold(ch[i].name)] == ch[i].values)
      && (forall i :: (0 <= i < |rh| && LastOfName(rh, i) && Fold(rh[i].name) !in Names(ch))
            ==> m[Fold(rh[i].name)] == rh[i].values)
  {
    var rh, ch := upstream.headers, ContentHeaders(upstream);
    var m1 := AssignAll(h, rh);
    AssignAllKeys(h, rh);
    AssignAllKeys(m1, ch);
    forall k | k !in Names(rh) && k !in Names(ch)
      ensures (k in AssignAll(m1, ch) <==> k in h) && (k in h ==> AssignAll(m1, ch)[k] == h[k])
    {
      AssignAllUntouched(h, rh, k);
      AssignAllUntouched(m1, ch, k);
    }
    forall i | 0 <= i < |ch| && LastOfName(ch, i)
      ensures AssignAll(m1, ch)[Fold(ch[i].name)] == ch[i].values
    {
      AssignAllLastWins(m1, ch, i);
    }
    forall i | 0 <= i < |rh| && LastOfName(rh, i) && Fold(rh[i].name) !in Names(ch)
      ensures AssignAll(m1, ch)[Fold(rh[i].name)] == rh[i].values
    {
      AssignAllLastWins(h, rh, i);
      AssignAllUntouched(m1, ch, Fold(rh[i].name));
    }
  }

  /**
   * The relay: the copy loops' properties, restricted to names other than
   * `transfer-encoding`, which is gone.
   */
  lemma RelayHeadersProperties(h: HeaderMap, upstream: ResponseMessage)
    ensures var r, rh, ch := RelayHeaders(h, upstream), upstream.headers, ContentHeaders(upstream);
      && TransferEncoding !in r
      && (forall k :: k in r <==> k != TransferEncoding && (k in h || k in Names(rh) || k in Names(ch)))
      && (forall k :: k in h && k != TransferEncoding && k !in Names(rh) && k !in Names(ch) ==> r[k] == h[k])
      && (forall i :: 0 <= i < |ch| && LastOfName(ch, i) && Fold(ch[i].name) != TransferEncoding ==>
            r[Fold(ch[i].name)] == ch[i].values)
      && (forall i :: (0 <= i < |rh| && LastOfName(rh, i) && Fold(rh[i].name) != TransferEncoding
                      && Fold(rh[i].name) !in Names(ch)) ==> r[Fold(rh[i].name)] == rh[i].values)
  {
    MergedProperties(h, upstream);
  }

  /** With a case-insensitive response dictionary, no spelling of Transfer-Encoding survives the relay. */
  lemma RelayDropsTransferEncoding(h: HeaderMap, upstream: ResponseMessage)
    requires Folded(h)
    ensures Folded(RelayHeaders(h, upstream))
    ensures forall k :: k in RelayHeaders(h, upstream) ==> !SameIgnoringCase(k, "Transfer-Encoding")
  {
    MergedFolded(h, upstream);
    FoldIs("Transfer-Encoding", TransferEncoding);
    var r := RelayHeaders(h, upstream);
    forall k | k in r ensures Fold(k) == k && k != TransferEncoding {
      assert k in Merged(h, upstream);
    }
  }

  /** The copy loops keep a case-insensitive dictionary case-insensitive. */
  lemma MergedFolded(h: HeaderMap, upstream: ResponseMessage)
    requires Folded(h)
    ensures Folded(Merged(h, upstream))
  {
    AssignAllFolded(h, upstream.headers);
    AssignAllFolded(AssignAll(h, upstream.headers), ContentHeaders(upstream));
  }

  /** `IsContentOfType`: the upstream content has a content type whose media type is exactly `t`. */
  function IsContentOfType(upstream: ResponseMessage, t: string): (r: bool)
    ensures r <==> upstream.content.Some? && upstream.content.value.contentType.Some?
                   && upstream.content.value.contentType.value.mediaType == t
  {
    match upstream.content
    case None => false
    case Some(c) =>
      match c.contentType
      case None => false
      case Some(ct) => ct.mediaType == t
  }

  /**
   * A write to the caller's response body: the upstream bytes as they are,
   * or decoded as UTF-8 and written back as UTF-8 text.
   */
  datatype BodyWrite = RawBytes(bytes: seq<byte>) | Utf8Text(bytes: seq<byte>)

  /** The write `SendResponceToClient` performs for the upstream response. */
  function BodyWriteFor(upstream: ResponseMessage): (w: BodyWrite)
    ensures w.bytes == ResponseBytes(upstream)
    ensures w.Utf8Text? <==> exists t :: t in {"text/html", "text/javascript"} && IsContentOfType(upstream, t)
  {
    if IsContentOfType(upstream, "text/html") || IsContentOfType(upstream, "text/javascript")
    then Utf8Text(ResponseBytes(upstream))
    else RawBytes(ResponseBytes(upstream))
  }

  /**
   * `HttpContext.Response`, as the host hands it to the middleware: status
   * code, a case-insensitive header dictionary, and the body writes so far.
   */
  class HttpResponse {
    var statusCode: int
    var headers: HeaderMap
    var written: seq<BodyWrite>

    ghost predicate Valid()
      reads this
    {
      Folded(headers)
    }
  }

  /** `CopyFromTargetResponseHeaders`. */
  method CopyFromTargetResponseHeaders(response: HttpResponse, upstream: ResponseMessage)
    modifies response`headers
    ensures response.headers == RelayHeaders(old(response.headers), upstream)
  {
    var i := 0;
    while i < |upstream.headers|
      invariant 0 <= i <= |upstream.headers|
      invariant response.headers == AssignAll(old(response.headers), upstream.headers[..i])
    {
      assert upstream.headers[..i + 1][..i] == upstream.headers[..i];
      response.headers := Assign(response.headers, upstream.headers[i]);
      i := i + 1;
    }
    assert upstream.headers[..i] == upstream.headers;
    ghost var afterResponseHeaders := response.headers;
    var contentHeaders := ContentHeaders(upstream);
    var j := 0;
    while j < |contentHeaders|
      invariant 0 <= j <= |contentHeaders|
      invariant response.headers == AssignAll(afterResponseHeaders, contentHeaders[..j])
    {
      assert contentHeaders[..j + 1][..j] == contentHeaders[..j];
      response.headers := Assign(response.headers, contentHeaders[j]);
      j := j + 1;
    }
    assert contentHeaders[..j] == contentHeaders;
    response.headers := response.headers - {TransferEncoding};
  }

  /** `SendResponceToClient`. */
  method SendResponseToClient(response: HttpResponse, upstream: ResponseMessage)
    modifies response`written
    ensures response.written == old(response.written) + [BodyWriteFor(upstream)]
  {
    var content := ResponseBytes(upstream);
    if IsContentOfType(upstream, "text/html") || IsContentOfType(upstream, "text/javascript") {
      response.written := response.written + [Utf8Text(content)];
    } else {
      response.written := response.written + [RawBytes(content)];
    }
  }

  /** The relay block of `Invoke`: status code, headers, then the body. */
  method RelayResponse(response: HttpResponse, upstream: ResponseMessage)
    requires response.Valid()
    modifies response
    ensures response.Valid()
    ensures response.statusCode == upstream.statusCode
    ensures response.headers == RelayHeaders(old(response.headers), upstream)
    ensures response.written == old(response.written) + [BodyWriteFor(upstream)]
  {
    response.statusCode := upstream.statusCode;
    CopyFromTargetResponseHeaders(response, upstream);
    RelayDropsTransferEncoding(old(response.headers), upstream);
    SendResponseToClient(response, upstream);
  }

  // ------------------------------------------------------------------ cache

  /** The value the cache step files under a target URI. */
  const Placeholder := "Some information"
  /** The entry options the cache step sets; expiry itself is not modelled. */
  const SlidingExpirationSeconds := 60
  const AbsoluteExpirationSeconds := 3600

  /** The cache after the step under the semaphore for `key`. */
  function Populated(cache: map<string, string>, key: string): (r: map<string, string>)
    ensures r.Keys == cache.Keys + {key}
    ensures key in cache ==> r == cache
    ensures key !in cache ==> r[key] == Placeholder
    ensures forall k :: k in cache ==> r[k] == cache[k]
  {
    if key in cache then cache else cache[key := Placeholder]
  }

  /** The cache after consecutive cache steps for `keys`. */
  function AfterCacheSteps(cache: map<string, string>, keys: seq<string>): map<string, string>
    decreases |keys|
  {
    if keys == [] then cache else Populated(AfterCacheSteps(cache, keys[..|keys| - 1]), keys[|keys| - 1])
  }

  function KeySet(keys: seq<string>): set<string> {
    set k | k in keys
  }

  /** Every requested key ends up in the cache. */
  lemma {:induction false} CacheStepsKeys(cache: map<string, string>, keys: seq<string>)
    ensures AfterCacheSteps(cache, keys).Keys == cache.Keys + KeySet(keys)
    decreases |keys|
  {
    if keys != [] {
      var init := keys[..|keys| - 1];
      CacheStepsKeys(cache, init);
      assert keys == init + [keys[|keys| - 1]];
      assert KeySet(keys) == KeySet(init) + {keys[|keys| - 1]};
    }
  }

  /** Entries already present are never overwritten; every new entry holds the placeholder. */
  lemma {:induction false} CacheStepsValues(cache: map<string, string>, keys: seq<string>)
    ensures forall k :: k in cache ==> k in AfterCacheSteps(cache, keys) && AfterCacheSteps(cache, keys)[k] == cache[k]
    ensures forall k :: k in AfterCacheSteps(cache, keys) && k !in cache ==> AfterCacheSteps(cache, keys)[k] == Placeholder
    decreases |keys|
  {
    if keys != [] {
      CacheStepsValues(cache, keys[..|keys| - 1]);
    }
  }

  /** Request `i` of `keys` finds its key missing under the semaphore and writes the entry. */
  predicate WritesEntry(cache: map<string, string>, keys: seq<string>, i: int)
    requires 0 <= i < |keys|
  {
    keys[i] !in AfterCacheSteps(cache, keys[..i])
  }

  /**
   * Single flight: a request writes the cache exactly when its key was
   * missing at the start and no earlier request asked for it, so each
   * missing key is written once, by its first request, however many follow.
   */
  lemma OneWritePerKey(cache: map<string, string>, keys: seq<string>, i: int)
    requires 0 <= i < |keys|
    ensures WritesEntry(cache, keys, i) <==> keys[i] !in cache && forall j :: 0 <= j < i ==> keys[j] != keys[i]
  {
    CacheStepsKeys(cache, keys[..i]);
    assert forall j :: 0 <= j < i ==> keys[..i][j] == keys[j];
  }

  /** What `Invoke` does besides updating the response and the cache. */
  datatype Effect = Respond | CallNext

  /** The middleware: a balancer of its own and the shared in-memory cache. */
  class ReverseProxyMiddleware {
    const loadBalancer: LoadBalancer
    var cache: map<string, string>

    ghost predicate Valid()
      reads this, loadBalancer
    {
      loadBalancer.Valid()
    }

    /** The middleware over an injected cache, with a balancer over the configured downstreams. */
    constructor (memoryCache: map<string, string>)
      ensures Valid() && fresh(loadBalancer)
      ensures loadBalancer.State() == Fresh(DefaultDownstreams) && cache == memoryCache
    {
      loadBalancer := new LoadBalancer();
      cache := memoryCache;
    }

    /** `BuildTargetUri`: no target for a path without value, otherwise one balancer call. */
    method BuildTargetUri(request: InboundRequest) returns (targetUri: Option<string>)
      requires Valid()
      modifies loadBalancer
      ensures Valid()
      ensures request.path == "" ==> targetUri == None && loadBalancer.State() == old(loadBalancer.State())
      ensures request.path != "" ==>
        targetUri.Some? && Selection(loadBalancer.State(), targetUri.value) == Select(old(loadBalancer.State()), request.path)
    {
      targetUri := None;
      if request.path != "" {
        var uri := loadBalancer.GetUri(request.path);
        targetUri := Some(uri);
      }
    }

    /** The re-check and insertion done while holding the semaphore. */
    method PopulateUnderGate(key: string)
      modifies this`cache
      ensures cache == Populated(old(cache), key)
    {
      if key !in cache {
        cache := cache[key := Placeholder];
      }
    }

    /** The cache step of `Invoke`: a lookup, and on a miss the step under the semaphore. */
    method CacheStep(key: string) returns (hit: bool)
      modifies this`cache
      ensures hit == (key in old(cache))
      ensures cache == Populated(old(cache), key)
    {
      hit := key in cache;
      if !hit {
        PopulateUnderGate(key);
      }
    }

    /**
     * The part of `Invoke` after a target was found: the outbound message,
     * then, when the send returns a response, the relayed response, the cache
     * step and the call to the next middleware on a hit. `None` stands for a
     * send that throws (connection refused, request aborted): `Invoke` then
     * ends without touching the response or the cache.
     */
    method Forward(request: InboundRequest, targetUri: string, response: HttpResponse,
                   upstream: Option<ResponseMessage>, accepts: string -> bool)
      returns (message: RequestMessage, effects: seq<Effect>)
      requires response.Valid()
      modifies this`cache, response
      ensures response.Valid()
      ensures fresh(message)
      ensures message.requestUri == Some(targetUri)
      ensures message.httpMethod == GetHttpMethod(request.methodName)
      ensures message.headers == map["host" := [Host(targetUri)]]
      ensures message.content == OutboundContent(None, request, accepts)
      ensures upstream.None? ==> unchanged(response) && cache == old(cache) && effects == []
      ensures upstream.Some? ==>
        && response.statusCode == upstream.value.statusCode
        && response.headers == RelayHeaders(old(response.headers), upstream.value)
        && response.written == old(response.written) + [BodyWriteFor(upstream.value)]
        && cache == Populated(old(cache), targetUri)
        && effects == if targetUri in old(cache) then [Respond, CallNext] else [Respond]
    {
      message := CreateTargetMessage(request, targetUri, accepts);
      effects := [];
      if upstream.None? {
        return;
      }
      effects := RelayAndCache(targetUri, response, upstream.value);
    }

    /**
     * The part of `Invoke` once the upstream has answered: the relay, the
     * cache step, and the call to the next middleware on a cache hit.
     */
    method RelayAndCache(key: string, response: HttpResponse, upstream: ResponseMessage)
      returns (effects: seq<Effect>)
      requires response.Valid()
      modifies this`cache, response
      ensures response.Valid()
      ensures response.statusCode == upstream.statusCode
      ensures response.headers == RelayHeaders(old(response.headers), upstream)
      ensures response.written == old(response.written) + [BodyWriteFor(upstream)]
      ensures cache == Populated(old(cache), key)
      ensures effects == if key in old(cache) then [Respond, CallNext] else [Respond]
    {
      RelayResponse(response, upstream);
      effects := [Respond];
      var hit := CacheStep(key);
      if !hit {
        return;
      }
      effects := effects + [CallNext];
    }

    /**
     * `Invoke` for one request, given what the send to the upstream yields:
     * its response, or `None` when the send throws. A path without value
     * leads to nothing at all. Otherwise the balancer advances and the
     * outbound message is built; if a response arrives it is relayed, the
     * cache step runs, and the next middleware is called only on a cache hit.
     */
    method Invoke(request: InboundRequest, response: HttpResponse, upstream: Option<ResponseMessage>,
                  accepts: string -> bool)
      returns (sent: Option<RequestMessage>, effects: seq<Effect>)
      requires Valid() && response.Valid()
      modifies this`cache, loadBalancer, response
      ensures Valid() && response.Valid()
      ensures request.path == "" ==>
        && sent.None? && effects == []
        && cache == old(cache) && unchanged(response)
        && loadBalancer.State() == old(loadBalancer.State())
      ensures request.path != "" ==>
        var selection := Select(old(loadBalancer.State()), request.path);
        && loadBalancer.State() == selection.next
        && sent.Some? && fresh(sent.value)
        && sent.value.requestUri == Some(selection.uri)
        && sent.value.httpMethod == GetHttpMethod(request.methodName)
        && sent.value.headers == map["host" := [Host(selection.uri)]]
        && sent.value.content == OutboundContent(None, request, accepts)
      ensures request.path != "" && upstream.None? ==>
        unchanged(response) && cache == old(cache) && effects == []
      ensures request.path != "" && upstream.Some? ==>
        var selection := Select(old(loadBalancer.State()), request.path);
        && response.statusCode == upstream.value.statusCode
        && response.headers == RelayHeaders(old(response.headers), upstream.value)
        && response.written == old(response.written) + [BodyWriteFor(upstream.value)]
        && cache == Populated(old(cache), selection.uri)
        && effects == if selection.uri in old(cache) then [Respond, CallNext] else [Respond]
    {
      sent, effects := None, [];
      var targetUri := BuildTargetUri(request);
      if targetUri.Some? {
        var message;
        message, effects := Forward(request, targetUri.value, response, upstream, accepts);
        sent := Some(message);
      }
    }
  }
}
