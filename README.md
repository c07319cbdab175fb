# Reverse proxy core in Dafny

This project models the request-routing part of a small ASP.NET reverse proxy. There are two pieces:

- **The load balancer** (`LoadBalancer.getUri`). It is a round robin over two configured downstream base addresses, with stylesheet affinity. A path containing `.css` goes to the downstream the latest non-stylesheet call picked.
- **The proxy middleware** (`ReverseProxyMiddleware`). It does the following for each request:
  - maps the inbound method string to an `HttpMethod`;
  - builds the outbound message, attaching a body and the inbound headers only for methods that carry a body;
  - sets the outbound `Host` header;
  - relays the upstream status, headers and body, dropping `transfer-encoding`;
  - runs the double-checked "insert if absent" step on the in-memory cache, keyed by the target URI;
  - calls the next middleware only when that cache lookup hits.

The model has five modules:

- `Wrappers`: `Option`.
- `HttpHeaders`: case-insensitive header dictionaries, keyed by the ASCII-folded name. `Assign` is the indexer assignment. `TryAdd` is `TryAddWithoutValidation`, parameterised by the set of names the collection accepts.
- `Uris`: `Uri.Host` for absolute URIs of the form `scheme://host[:port]path`.
- `LoadBalancing`: the balancer's state as a value (`Cursor`), one call as a function (`Select`), and consecutive calls (`Run`). It also holds the class `LoadBalancer`, whose `GetUri` updates its fields in place and is proved to perform exactly `Select`. The schedule lemmas are stated about `Run`.
- `ReverseProxy`: three kinds of member.
  - The translators: `GetHttpMethod`, `OutboundContent`, `RelayHeaders`, `BodyWriteFor`.
  - Imperative methods that update an `HttpRequestMessage` or the caller's `HttpResponse` in place and are proved equal to those functions.
  - The cache step, and the class `ReverseProxyMiddleware` with `BuildTargetUri` and `Invoke`.

`Invoke` is given what the send to the upstream yields, as a parameter:
- the upstream response, or
- `None` when the send throws, for example on a refused connection or an aborted request.

It returns the outbound message it built and the sequence of effects it performed: `Respond` when the response was relayed, `CallNext` when the next middleware was called.

The code as written has the following behaviour, which the model follows:

- **No rewrite pass.** `text/html` and `text/javascript` bodies are decoded as UTF-8 and written back as UTF-8 text; nothing in them is rewritten (`ReverseProxyApp/ReverseProxyMiddleware.cs:110-117`).
- **No query string.** The target URI is the downstream base followed by `Path.Value`, so the query string is not forwarded (`ReverseProxyApp/ReverseProxyMiddleware.cs:225`).
- **Headers only with a body.** Inbound headers are copied only into the content headers, and only when content exists. Bodiless methods forward no inbound header at all (`ReverseProxyApp/ReverseProxyMiddleware.cs:165-168`).
- **Next middleware only on a hit.** On a cache miss `Invoke` returns without calling the next middleware; it calls it only on a hit (`ReverseProxyApp/ReverseProxyMiddleware.cs:62-100`).
- **A path without value does nothing.** It produces no target, no response and no call to the next middleware (`ReverseProxyApp/ReverseProxyMiddleware.cs:46-101`).

## Model

| member | source | states |
|---|---|---|
| LoadBalancing.Contains | ReverseProxyApp/LoadBalancer.cs:50 | `value.Contains(".css")`: true iff the substring occurs at some index, anywhere in the path, not only as a suffix |
| LoadBalancing.Select | ReverseProxyApp/LoadBalancer.cs:33-61 | One call keeps the invariant (`_size == |downstreams|`, `0 <= _position <= _size`, `0 <= _last < _size`) and leaves downstreams and size unchanged. The URI is always some downstream followed verbatim by the path. With one downstream: `downstreams[0] + v`, state unchanged. For a stylesheet: `downstreams[_last] + v`, `_last` kept, `_position` changed only by the wrap. Otherwise, with p the wrapped position: `downstreams[p] + v`, then `_last == p` and `_position == p + 1` |
| LoadBalancing.LoadBalancer.constructor | ReverseProxyApp/LoadBalancer.cs:21-31 | The fresh balancer holds the two configured downstreams, size 2, position 0, last 0, and satisfies the invariant |
| LoadBalancing.LoadBalancer.GetUri | ReverseProxyApp/LoadBalancer.cs:33-61 | The in-place field updates produce exactly the state and URI `Select` gives for the old state. The invariant is kept, the size is unchanged, and the URI is a downstream followed by the path |
| LoadBalancing.ScheduledFirst | ReverseProxyApp/LoadBalancer.cs:44-58 | The first call picks downstream `Scheduled(c, 0, path)`, a valid index |
| LoadBalancing.ScheduledStep | ReverseProxyApp/LoadBalancer.cs:44-58 | One call shifts the schedule. The old cursor after 1 + k advancing calls (0 + k after a stylesheet) picks what the new cursor picks after k |
| LoadBalancing.RunSchedule | ReverseProxyApp/LoadBalancer.cs:33-61 | Across any run of calls, call i picks downstream `Scheduled(c, k, paths[i])`, where k counts the earlier non-stylesheet calls. A page takes the next downstream of the round robin; a stylesheet takes the one the latest page took |
| LoadBalancing.PagesWithoutStylesheets | ReverseProxyApp/LoadBalancer.cs:57-58 | When no path is a stylesheet, every call advances the round robin |
| LoadBalancing.RoundRobin | ReverseProxyApp/LoadBalancer.cs:44-58 | From a fresh balancer, the i-th of consecutive non-stylesheet calls returns `downstreams[i % size] + path` |
| LoadBalancing.StylesheetFollowsPage | ReverseProxyApp/LoadBalancer.cs:49-58 | A stylesheet call right after a non-stylesheet call goes to the same downstream base as that call |
| HttpHeaders.Assign | ReverseProxyApp/ReverseProxyMiddleware.cs:177 | The indexer assignment `headers[name] = values` files the values under the folded name, replacing what was there. The name becomes a key, and every other key keeps its value |
| HttpHeaders.AssignAll | ReverseProxyApp/ReverseProxyMiddleware.cs:175-183 | A `foreach` loop of indexer assignments, in enumeration order. No key is lost, and the last entry's values are filed under its name |
| HttpHeaders.TryAdd | ReverseProxyApp/ReverseProxyMiddleware.cs:167 | `TryAddWithoutValidation`: a refused name leaves the collection unchanged. An accepted name becomes a key, with the values appended to any already filed under it, so a new name holds exactly the values. No existing value is lost, and other names are untouched |
| HttpHeaders.TryAddAll | ReverseProxyApp/ReverseProxyMiddleware.cs:165-168 | A `foreach` loop of `TryAddWithoutValidation` calls, in order. No key and no value already in the collection is lost |
| HttpHeaders.Fold | ReverseProxyApp/ReverseProxyMiddleware.cs:177 | The dictionary key of a header name keeps its length and folds each ASCII upper-case letter to lower case; no folded key holds an upper-case letter |
| HttpHeaders.AssignAllKeys | ReverseProxyApp/ReverseProxyMiddleware.cs:175-178 | After a loop of indexer assignments, the keys are the old keys plus the folded names assigned |
| HttpHeaders.AssignAllUntouched | ReverseProxyApp/ReverseProxyMiddleware.cs:175-178 | A key no assigned name folds to keeps its presence and its value |
| HttpHeaders.AssignAllLastWins | ReverseProxyApp/ReverseProxyMiddleware.cs:175-178 | The last entry with a given name, up to case, decides the value filed under it |
| HttpHeaders.AssignAllFolded | ReverseProxyApp/ReverseProxyMiddleware.cs:175-183 | Assignments keep a dictionary case-insensitive: every key stays folded |
| HttpHeaders.TryAddAllKeys | ReverseProxyApp/ReverseProxyMiddleware.cs:165-168 | Starting from empty content headers, exactly the accepted inbound names end up as keys |
| HttpHeaders.TryAddAllDistinct | ReverseProxyApp/ReverseProxyMiddleware.cs:165-168 | For inbound headers with distinct names, each accepted header arrives with exactly its own values |
| Uris.AfterSchemeSeparator | ReverseProxyApp/ReverseProxyMiddleware.cs:143 | Finds what follows the first "://" of a URI: a separator sits right before the returned suffix and none earlier. None means there is no separator anywhere |
| Uris.TakeUntil | ReverseProxyApp/ReverseProxyMiddleware.cs:143 | The longest prefix holding none of the stop characters: a prefix, free of stops, and followed by a stop or the end |
| Uris.AfterScheme | ReverseProxyApp/ReverseProxyMiddleware.cs:143 | For a scheme without "://" of its own, the authority starts right after `scheme://` |
| Uris.TakeUntilStop | ReverseProxyApp/ReverseProxyMiddleware.cs:143 | The host part ends exactly at the first terminator |
| Uris.Host | ReverseProxyApp/ReverseProxyMiddleware.cs:143 | `targetUri.Host`: the part after the first "://" up to the first of `:`, `/`, `?`, `#`. It is a prefix of the authority and holds no terminator |
| Uris.HostOfAuthority | ReverseProxyApp/ReverseProxyMiddleware.cs:143 | `Uri.Host` of `scheme://name:rest` is `name` for every `rest`, in the model's `Host`. The proxy only builds such URIs from a configured base and a path starting with `/`, so no user information can appear |
| ReverseProxy.FoldedNameIsFold | ReverseProxyApp/ReverseProxyMiddleware.cs:191-197 | Each standard method's upper-case name folds to the name the case-insensitive comparison matches |
| ReverseProxy.GetHttpMethod | ReverseProxyApp/ReverseProxyMiddleware.cs:189-199 | The result is a given standard method iff the string names that method ignoring case. It is custom iff the string names none of the seven, and a custom method carries the identical string; no input is rejected |
| ReverseProxy.MethodMatchIgnoresCase | ReverseProxyApp/ReverseProxyMiddleware.cs:191-197 | A string maps to a standard method iff it equals that method's name ignoring case, in both directions |
| ReverseProxy.MethodNameRoundTrip | ReverseProxyApp/ReverseProxyMiddleware.cs:189-199 | Mapping a method's own name gives the method back, for every standard method and every custom name that is not a standard one |
| ReverseProxy.CarriesBody | ReverseProxyApp/ReverseProxyMiddleware.cs:154-157 | The body test is true iff the mapped method is none of GET, HEAD, DELETE, TRACE |
| ReverseProxy.RequestMessage.constructor | ReverseProxyApp/ReverseProxyMiddleware.cs:138 | `new HttpRequestMessage()`: method GET, no URI, no headers, no content |
| ReverseProxy.OutboundContent | ReverseProxyApp/ReverseProxyMiddleware.cs:150-169 | The outbound content after the copy step. There is none iff the method carries no body and there was none before. A body method gets the inbound body stream, and the inbound headers are offered to the content headers |
| ReverseProxy.BodilessRequestForwardsNothing | ReverseProxyApp/ReverseProxyMiddleware.cs:150-169 | For GET, HEAD, DELETE and TRACE, in any spelling, neither a body nor any inbound header reaches the outbound message |
| ReverseProxy.BodyRequestForwardsContent | ReverseProxyApp/ReverseProxyMiddleware.cs:150-169 | Any other method forwards the inbound body stream unchanged. Its content headers are exactly the accepted inbound names, each with its own values |
| ReverseProxy.CopyFromOriginalRequestContentAndHeaders | ReverseProxyApp/ReverseProxyMiddleware.cs:150-169 | The in-place steps (stream content for body methods, then one `TryAddWithoutValidation` per inbound header on the content, if any) leave exactly `OutboundContent` of the prior content. Only the message's content changes |
| ReverseProxy.HostHeaderOnly | ReverseProxyApp/ReverseProxyMiddleware.cs:143 | Setting `Host` on empty request headers files it as the only entry |
| ReverseProxy.CreateTargetMessage | ReverseProxyApp/ReverseProxyMiddleware.cs:136-147 | The fresh outbound message has `RequestUri == targetUri`, the single request header `Host == targetUri.Host`, `Method == GetHttpMethod(request.Method)`, and the content the copy step gives |
| ReverseProxy.DefaultTargetHost | ReverseProxyApp/ReverseProxyMiddleware.cs:143 | For both configured downstreams and any path starting with `/` (as `PathString.Value` does), the outbound Host is `localhost` |
| ReverseProxy.LocalTargetHost | ReverseProxyApp/ReverseProxyMiddleware.cs:143 | `http://localhost:port` or `https://localhost:port` followed by any path has host `localhost` |
| ReverseProxy.Merged | ReverseProxyApp/ReverseProxyMiddleware.cs:175-183 | The two copy loops, response headers then content headers. The keys are the old keys plus every upstream name |
| ReverseProxy.RelayHeaders | ReverseProxyApp/ReverseProxyMiddleware.cs:172-186 | The relayed headers are the merge with `transfer-encoding` removed. Every other merged key keeps its merged value |
| ReverseProxy.MergedFolded | ReverseProxyApp/ReverseProxyMiddleware.cs:175-183 | The copy loops keep a case-insensitive response dictionary case-insensitive |
| ReverseProxy.MergedProperties | ReverseProxyApp/ReverseProxyMiddleware.cs:175-183 | After the two copy loops, a key is present iff it was before or upstream sends it. Keys upstream does not name are untouched. The last content header of a name wins, also over a response header of that name, and otherwise the last response header of the name wins |
| ReverseProxy.RelayHeadersProperties | ReverseProxyApp/ReverseProxyMiddleware.cs:172-186 | The relayed headers are the copy loops' result restricted to keys other than `transfer-encoding`, which is absent: key presence, untouched keys, content wins, last response value |
| ReverseProxy.RelayDropsTransferEncoding | ReverseProxyApp/ReverseProxyMiddleware.cs:185 | On a case-insensitive response dictionary the relay keeps the dictionary case-insensitive, and no key equals "Transfer-Encoding" in any spelling |
| ReverseProxy.IsContentOfType | ReverseProxyApp/ReverseProxyMiddleware.cs:124-134 | True iff there is content, it has a content type, and the media type equals `t` exactly; false when content or content type is missing |
| ReverseProxy.BodyWriteFor | ReverseProxyApp/ReverseProxyMiddleware.cs:105-122 | The body write carries the upstream bytes. It is a UTF-8 text write iff the media type is `text/html` or `text/javascript`, and a raw write otherwise |
| ReverseProxy.CopyFromTargetResponseHeaders | ReverseProxyApp/ReverseProxyMiddleware.cs:172-186 | The two in-place loops and the removal leave the response headers equal to `RelayHeaders` of the old headers. Only the headers change |
| ReverseProxy.SendResponseToClient | ReverseProxyApp/ReverseProxyMiddleware.cs:105-122 | Exactly one body write, `BodyWriteFor(upstream)`, is appended to what was written. Only the body changes |
| ReverseProxy.RelayResponse | ReverseProxyApp/ReverseProxyMiddleware.cs:53-57 | The status code is copied verbatim, the headers become `RelayHeaders`, one body write is appended, and the response dictionary stays case-insensitive |
| ReverseProxy.Populated | ReverseProxyApp/ReverseProxyMiddleware.cs:75-90 | The step under the semaphore: the key is present afterwards and no other key is added. A key already present leaves the cache unchanged. A missing key is filed with "Some information". Existing entries are never overwritten |
| ReverseProxy.CacheStepsKeys | ReverseProxyApp/ReverseProxyMiddleware.cs:62-98 | After a sequence of cache steps, the keys are the initial keys plus every requested target URI |
| ReverseProxy.CacheStepsValues | ReverseProxyApp/ReverseProxyMiddleware.cs:62-98 | Across cache steps, entries present at the start keep their values, and every new entry holds "Some information" |
| ReverseProxy.OneWritePerKey | ReverseProxyApp/ReverseProxyMiddleware.cs:62-98 | Single flight: request i writes the cache iff its key was missing at the start and no earlier request had that key. Each missing key is written once, by its first request |
| ReverseProxy.ReverseProxyMiddleware.constructor | ReverseProxyApp/ReverseProxyMiddleware.cs:32-37 | A fresh balancer over the configured downstreams, and the injected cache |
| ReverseProxy.ReverseProxyMiddleware.BuildTargetUri | ReverseProxyApp/ReverseProxyMiddleware.cs:203-228 | No target iff the path has no value, and then the balancer is untouched. Otherwise the result is the URI of exactly one `getUri(path)` call, and the balancer's new state is that call's |
| ReverseProxy.ReverseProxyMiddleware.PopulateUnderGate | ReverseProxyApp/ReverseProxyMiddleware.cs:74-96 | The re-check and insert under the semaphore leave the cache equal to `Populated`: unchanged if the key became present, the placeholder filed otherwise |
| ReverseProxy.ReverseProxyMiddleware.CacheStep | ReverseProxyApp/ReverseProxyMiddleware.cs:62-98 | Reports a hit iff the key was present. The cache becomes `Populated`, so it is unchanged on a hit and gains the placeholder on a miss |
| ReverseProxy.ReverseProxyMiddleware.RelayAndCache | ReverseProxyApp/ReverseProxyMiddleware.cs:53-100 | Once the upstream has answered, the response is relayed and the cache is populated for the target. The effects are respond then call-next on a hit, and respond alone on a miss |
| ReverseProxy.ReverseProxyMiddleware.Forward | ReverseProxyApp/ReverseProxyMiddleware.cs:49-100 | For a found target, the outbound message of `CreateTargetMessage` is built. A send that throws leaves the response and cache unchanged with no effect. A response is relayed, then the cache step runs, with call-next only on a hit |
| ReverseProxy.ReverseProxyMiddleware.Invoke | ReverseProxyApp/ReverseProxyMiddleware.cs:40-102 | A path without value sends nothing, changes neither response, cache nor balancer, and has no effect. Otherwise, exactly one balancer call picks the target, and the outbound message has that URI, its Host, the mapped method and the copied content. If the send throws, the balancer has still advanced, but the response and the cache are unchanged and nothing further happens. If a response arrives, it is relayed and the cache is populated for the target; the next middleware is called after the response iff the target was already cached |

## Left out

- Sending the outbound request (`HttpClient.SendAsync` with response-headers-first reading and `RequestAborted` cancellation) is network I/O. `Invoke` takes its outcome as a parameter instead: the upstream's response, or `None` for a send that throws.
- Reading the upstream body (`ReadAsByteArrayAsync`) and writing to the caller's body are I/O. The body is a byte sequence, and each write is recorded as one `BodyWrite` value.
- UTF-8 decoding and re-encoding of `text/html` and `text/javascript` bodies is a library text-encoding call. The model records only that such a body is written as UTF-8 text rather than as raw bytes.
- The `lock` in `getUri`, the `SemaphoreSlim` around the cache re-check, and interleavings of concurrent requests are concurrency. Each balancer call and each cache step is modelled as atomic, and requests as sequential.
- The cache entry options (sliding expiry 60 s, absolute expiry 3600 s, normal priority) drive time-based eviction inside the cache library. The constants are recorded; expiry is not modelled.
- Which header names `TryAddWithoutValidation` accepts or refuses is decided inside the library. It is the parameter `accepts`.
- `ReverseProxy.GetHttpMethod`: the `HttpMethod(string)` constructor's own validation of the method token, which throws for an empty or malformed name, is not modelled.
- `Uris.Host`: it models `Uri.Host` only for absolute URIs of the form `scheme://host[:port]path`. URI parsing and escaping, user information, IPv6 literals and host normalisation are not modelled. A `new Uri(...)` that throws on a malformed path is not modelled either.
- The cache key is the target URI as a string. `Uri` equality as used by the cache library is not modelled.
- ReverseProxy.ReverseProxyMiddleware.Invoke: a failure while reading the upstream body or writing the caller's body (`ReadAsByteArrayAsync`, `WriteAsync`) is not modelled. Such a failure happens after the status code and headers were set. It ends `Invoke` without the body write, the cache step or the next middleware; only a failure of the send itself is modelled, as `None`.
- HttpHeaders.Assign: a header dictionary keyed by the folded name loses the spelling the ASP.NET dictionary first stored and sends on the wire. The model keeps only which names are present and their values, not how a name is capitalised.
- Case-insensitive header names and method names are compared by ASCII case folding only; non-ASCII case folding is not modelled.
- `ReverseProxyApp/Client.cs` is not part of this model. It is a lazy singleton around `HttpClient` with no logic of its own.
- `ReverseProxyApp/Program.cs` is not part of this model. It is ASP.NET host bootstrapping.
- A missing upstream content is treated as empty content: no headers, no content type, no bytes. This is how current `HttpResponseMessage.Content` behaves, never null.
