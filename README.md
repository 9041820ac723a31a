# Instagram post resolver and media proxy, modelled in Dafny

This project models the server logic of `app.js`, a small Express service with two jobs:

- **Post resolution.** `POST /api/instagram/post` turns an Instagram post URL into a JSON
  description of the post: its media URLs, owner details, like count, caption and
  de-duplicated comments. To do so it extracts the shortcode from the URL, fetches the
  landing page for a CSRF cookie, and sends one GraphQL query.
- **Media proxying.** `GET /api/stream` relays an image or video from an allow-listed host.
  `GET /api/download` relays one as an attachment with a file name.

The model follows the code's own structure:

| module | file | models |
|---|---|---|
| `Text` | text.dfy | `split`, `includes`, `toLowerCase` (for capitals in the Latin-1 range) and decimal rendering on strings |
| `Js` | js.dfy | parsed JSON values with `undefined`, truthiness, `\|\|`, property access with and without `?.`, and the TypeErrors V8 raises |
| `Http` | http.dfy | an axios call as an input outcome, and `validateStatus` |
| `Config` | config.dfy | the GraphQL document id and the browser `User-Agent` |
| `Shortcode` | shortcode.dfy | share-link following and shortcode extraction |
| `Session` | session.dfy | the `csrftoken` cookie and the GraphQL request headers |
| `PostAssembly` | post.dfy | `formatMedia`, the sidecar walk, `formatComments` and `post_info` |
| `Resolver` | resolver.dfy | post selection, error normalisation, the pipeline, the cache and the route |
| `MediaType` | mediatype.dfy | the media-type parser and formatter (section 3.1.1.1 of RFC 7231) and `setCharset`, which Express's `res.send` applies to the `Content-Type` of every `res.json` answer |
| `MediaProxy` | proxy.dfy | the allow-list, file names, content types, the response object with `headersSent`, the headers of a JSON answer, piping, and both proxy routes |

**Network calls are inputs.** A request's result is an `Http.Outcome`: a response, no
response, or a request that never went out. A piped body is a sequence of stream events. Some
methods also return a request they would send, so contracts can say when that fetch happens:
`PostCache.GetPost` returns the GraphQL query, and both proxy routes return the media fetch.
The share-link probe and the landing-page GET are not returned; `Resolve` takes their outcomes
as inputs, and reads the probe's only when the URL contains `/share/`.

**The code's own form is kept.** Loops that push into lists become methods with loop
invariants, each proved equal to a specification function:
- `CollectMedia` keeps `mediaDetails` and `urlList` aligned;
- `FilterFirstById` carries the `seen` set;
- `Pipe` forwards chunks.

**A JSON answer rewrites the `Content-Type` already set.** `res.json` keeps a
`Content-Type` the route set earlier, and `res.send` then passes it through `setCharset(type,
'utf-8')`. So a stream error after the media headers were set, but before any chunk went out,
answers JSON under the media type with `; charset=utf-8` added (`image/jpeg; charset=utf-8`).
When that type does not parse, `res.json` throws a TypeError. The status is already 500 by
then, and nothing is sent. Inside the stream's `error` listener, or inside the route's own
`catch`, nothing catches that TypeError, so it leaves the handler. The methods return it as
`escaped`.

The cache and the response object, whose fields the code updates, become classes:
- `PostCache` holds `entries`;
- `ServerReply` holds `statusCode`, `headers`, `headersSent`, the JSON body and the streamed
  chunks.

**What the code does, read closely:**
- A failed landing-page fetch is fatal. The code has no inner `catch` around it
  (`Resolver.LandingFailureIsFatal`).
- There is no regex-based primary strategy, no retry with another document id, and no
  recursive search of the GraphQL answer. The post is read from three fixed keys only.
- The cache key is `instagram:` plus the URL as given. The looked-up entry is never used, so
  every request fetches again.
- `/api/download` fetches any non-empty URL. It has no host allow-list.
- The allow-list of `/api/stream` tests whether an allowed name occurs anywhere in the host
  name (`includes`), not whether the host ends with it.

## Model

| member | source | states |
|---|---|---|
| Text.Split | app.js:80 | `split` on one character yields at least one piece, no piece holds the separator, and joining the pieces with the separator gives back the input |
| Text.SplitJoin | app.js:80 | splitting a join of separator-free pieces returns exactly those pieces |
| Text.ContainsIff | app.js:65 | `includes` holds exactly when the pattern occurs at some position of the string |
| Http.Settle | app.js:120-125 | a call resolves exactly when it was answered with a status the `validateStatus` accepts, and then yields that response. A rejected status gives an HTTP error carrying the same status and body. No answer gives a no-response error |
| Shortcode.FindTag | app.js:82 | `findIndex` gives the index of the first segment that is `p`, `reel`, `tv` or `reels`, or -1 when there is none |
| Shortcode.ExtractShortcode | app.js:80-84 | succeeds exactly when the first post-tag segment is followed by a non-empty segment, and yields that segment, which is non-empty and slash-free. Otherwise it fails with "Invalid Instagram URL (shortcode not found)" |
| Shortcode.ExtractFromSegments | app.js:80-84 | for any URL made of slash-free segments whose first tag is at position n, the shortcode is segment n+1 |
| Shortcode.QueryKeptInShortcode | app.js:80-83 | a query string right after the shortcode stays part of it (`/p/ABC?x=1` yields `ABC?x=1`) |
| Shortcode.TrailingSlashEndsShortcode | app.js:80-83 | a slash before the query ends the shortcode (`/p/ABC/?x=1` yields `ABC`) |
| Shortcode.FollowShareLink | app.js:64-78 | a URL containing `/share/` whose redirect probe reported a non-empty final URL is replaced by that URL. In every other case (no `/share/`, a failed probe, an empty final URL) the URL is kept |
| Session.FindCsrfCookie | app.js:92-93 | no cookie is found exactly when no `Set-Cookie` line starts with `csrftoken=`; otherwise the first such line is returned |
| Session.CookieValueIsToken | app.js:94 | the token is the text after `csrftoken=` up to the first `;` or `=`; it holds neither character |
| Session.CookieValueOf | app.js:94 | round trip: for a token t without `;` or `=`, followed by nothing or by `;`/`=`, the token of `csrftoken=` + t + rest is t |
| Session.CsrfToken | app.js:92-94 | there is a token exactly when a `csrftoken` cookie line exists, and it is the cookie value of the first such line |
| Session.BuildQueryHeaders | app.js:106-118 | `X-CSRFToken` is present exactly when the token is truthy, and its value is the token; the ten fixed headers are kept unchanged and no other key appears |
| PostAssembly.FormatMedia | app.js:136-149 | fails exactly on a null or undefined media object, with the V8 read error. Videos use `video_url`, carry `display_url` as thumbnail, and carry the view count when truthy, else 0. Images use `display_url` and carry neither. Dimensions are the given ones when truthy, else the empty object `{}` |
| PostAssembly.FormatEdges | app.js:173-176 | one entry per child edge, in order. The walk fails exactly when some edge fails, and then with the error of the first failing edge |
| PostAssembly.MediaOf | app.js:171-180 | a post that is not a sidecar gives exactly one entry, itself formatted. A sidecar without `edges` gives none. A sidecar whose `edges` is an array gives exactly what walking those edges gives. One whose `edges` is truthy but not an array fails with `edges.forEach is not a function` |
| PostAssembly.CollectMedia | app.js:168-180 | the push loop produces the entries of `MediaOf`, and its URL list has the same length with each URL equal to its entry's URL |
| PostAssembly.MissingTimeThrows | app.js:164 | a missing timestamp makes `toISOString` throw `RangeError: Invalid time value`; a null one is the epoch |
| PostAssembly.NodesOf | app.js:154 | mapping edges to their nodes keeps length and order, and fails at the first null or undefined edge |
| PostAssembly.FilterFirstById | app.js:152-159 | the `seen`-set loop computes `DedupNodes`: it throws at the first null node, else keeps the first node of each id |
| PostAssembly.DedupKeepsFirstOccurrences | app.js:152-159 | the kept nodes are an order-preserving subsequence of the input, have pairwise distinct ids, and include the first node of every id |
| PostAssembly.ToComment | app.js:160-165 | fails exactly when `created_at` is no valid time, with the `RangeError`. Otherwise the comment has the node's id, the owner's username when truthy and else `unknown`, the node's `text`, and `created_at` seconds as the instant in milliseconds |
| PostAssembly.ToComments | app.js:160-165 | succeeds exactly when every node's comment does, and then gives one comment per node, the k-th being the comment of the k-th node |
| PostAssembly.BuildComments | app.js:151-166 | the imperative `formatComments` equals its specification `FormatComments` |
| PostAssembly.FormatCommentsSpec | app.js:151-166 | undefined edges give no comments. On success the comments are those of the kept nodes, one each and in the same order, and the kept nodes are an order-preserving subsequence of the edges' nodes. So there are at most as many comments as edges, ids are pairwise distinct, usernames are truthy, and the first edge of every id has its comment |
| PostAssembly.UndatedCommentThrows | app.js:164 | one kept comment with no valid `created_at` makes the whole comment list, and so the resolve, fail |
| PostAssembly.InfoOf | app.js:189-199 | fails only when `taken_at` is truthy but no valid date. Otherwise the owner's username and full name, the like count and the caption are the given values when truthy, else `''` (0 for likes). `is_verified`, `is_private` and `is_ad` are their truthiness. `comments_count` is the count given. `taken_at` is present exactly when truthy, and is then that instant |
| PostAssembly.BareInfo | app.js:189-199 | a post with no optional field gets every default: empty names and caption, false flags, 0 likes, null `taken_at` |
| PostAssembly.AssemblePost | app.js:168-202 | succeeds exactly when media, comments and `post_info` do. A media error wins, then a comment error, then the `taken_at` error. `media_details` is the media walk's result, `comments` the formatted comments, and `post_info` is built from the post with that many comments. `results_number` equals the lengths of `url_list` and `media_details`, which are aligned entry by entry. A non-sidecar post has exactly one result |
| PostAssembly.BuildResult | app.js:168-202 | the imperative assembly equals `AssemblePost` |
| Resolver.SelectPost | app.js:127-134 | a falsy body fails with "No data from Instagram GraphQL". Otherwise it succeeds exactly when one of `xdt_shortcode_media`, `shortcode_media`, `media` is truthy, and yields the first truthy one in that order. Otherwise it fails with the "Only posts/reels supported" error |
| Resolver.NoShortcodeNoFetch | app.js:80-90 | without a shortcode the resolve fails with the shortcode error, whatever the network would answer |
| Resolver.LandingFailureIsFatal | app.js:87-90 | a failed landing-page fetch ends the resolve with that failure, whatever the GraphQL answer |
| Resolver.ClientErrorBodyIsRead | app.js:120-127 | a 4xx GraphQL answer is not an HTTP error; with an empty body it fails with "No data from Instagram GraphQL" |
| Resolver.Normalize | app.js:210-229 | the normalised error text is never empty. An HTTP error gives `Instagram API error: <status> <statusText>` with the body as details. No response gives the network error with the message. Anything else gives its message, or "Unknown error occurred" when empty, with the stack head as details |
| Resolver.ServerErrorReported | app.js:210-218 | a GraphQL answer of 500 or more surfaces as `Instagram API error: <status> <statusText>` with its body |
| Resolver.CacheKey | app.js:60 | the key is `instagram:` followed by the URL exactly as given |
| Resolver.CacheKeyInjective | app.js:60 | two different URLs never share a cache key |
| Resolver.Respond | app.js:244-248 | status 500 exactly when the result carries a non-empty `error`, else 200; the body is the result itself |
| Resolver.FailureIs500 | app.js:244-245 | every normalised failure is answered with 500 |
| Resolver.PostCache.GetPost | app.js:57-231 | the result is the resolve's, with failures normalised. Only a success is written to the cache, under its key, and the rest of the cache is unchanged. The GraphQL request is sent exactly when a shortcode was found and the landing page answered; it carries that shortcode, the document id, and `X-CSRFToken` exactly when the cookie gave a truthy token |
| Resolver.PostCache.HandlePost | app.js:236-248 | a falsy `url` gives 400 with "URL is required". 200 comes exactly when a string URL resolves, with the post as body, and only then is the post cached under its key; otherwise the cache is unchanged. 500 is given otherwise: a failed resolve with its normalised error, and a non-string URL with the normalised TypeError `NonStringUrlError` gives |
| Resolver.NonStringUrlError | app.js:60-65 | the cache key's template literal converts a non-string `url` first: an object with its own `toString` key, or an array holding one at any depth, throws "Cannot convert object to primitive value". Any other non-string `url` throws a different TypeError, the missing `split` of an array or the missing `includes` of anything else |
| Resolver.NestedToStringThrows | app.js:60 | an array holding an array holding an object with a `toString` key throws "Cannot convert object to primitive value" |
| MediaType.Parse | app.js:310 | `contentType.parse` of a `Content-Type`: the empty string throws "argument string is required"; a text before the first `;` that is no `type/subtype` throws "invalid media type"; a parsed type is the lower-cased trimmed type name |
| MediaType.SetCharset | app.js:310 | `setCharset` returns an empty type unchanged, and passes on the parser's error for a type that does not parse |
| MediaType.InsertLookup | app.js:310 | storing a parameter is a map update: its name then holds the new value, every other name what it held |
| MediaType.InsertKeepsOrder | app.js:310 | storing a parameter keeps the list sorted by name, the order in which `format` writes them |
| MediaType.UnescapeEscape | app.js:310 | reading a quoted string undoes the backslash escaping of writing it |
| MediaType.ParseFormattedParams | app.js:310 | well-formed parameters sorted by name that `format` wrote are read back by the parser as the same list, after the ones read before them |
| MediaType.ParseFormat | app.js:310 | round trip: a media type with a lower-case type name and sorted, writable parameters is formatted without error, and parsing the text gives it back |
| MediaType.SetCharsetSpec | app.js:310 | when `setCharset` succeeds, its text parses to the same type name with `charset` set to the given value and every other parameter as it was |
| MediaType.SetCharsetFailure | app.js:310 | once the type parses, the only error `setCharset` can throw is "invalid parameter value" |
| MediaType.SetCharsetIdempotent | app.js:310 | applying `setCharset` to its own output changes nothing |
| MediaType.BareTypeGetsCharset | app.js:310 | a bare `type/subtype` becomes its lower-cased self followed by `; charset=<charset>` |
| MediaProxy.AnyContainedIff | app.js:270 | the allow-list test holds exactly when one listed name occurs in the host name |
| MediaProxy.AllowListIsSubstringTest | app.js:268-272 | a host passes exactly when one of the three allowed names occurs in it; any text before or after an allowed name still passes |
| MediaProxy.ShortHostBlocked | app.js:268-272 | a host name shorter than every allowed name is blocked |
| MediaProxy.JsonHeaders | app.js:310 | a JSON answer can be sent exactly when its content type can be made and is valid header text. It then goes out with the headers already set, minus `Content-Length`, plus that `Content-Type`. A type that does not parse throws the parser's error; one that is no valid header text throws Node's invalid-character error |
| MediaProxy.JsonDefaultCharset | app.js:264 | with no `Content-Type` set, `res.json`'s `application/json` becomes `application/json; charset=utf-8`, which a second `setCharset` leaves as it is |
| MediaProxy.JsonContentTypeSpec | app.js:310 | a bare media type already set gets its lower-cased self plus `; charset=utf-8`. One that does not parse throws the parser's error. One that parses can only throw "invalid parameter value". A successful type is left as it is by a second `setCharset` |
| MediaProxy.JsonHeadersOfNone | app.js:264 | a reply with no `Content-Type` answers JSON with `application/json; charset=utf-8` and keeps every other header |
| MediaProxy.JsonHeadersOfTypeName | app.js:310 | an early stream error under a bare media type such as `image/jpeg` answers JSON under `image/jpeg; charset=utf-8` |
| MediaProxy.TrailingSemicolonThrows | app.js:310 | an early stream error under a media type such as `image/jpeg;` makes `res.json` throw "invalid parameter format" |
| MediaProxy.ServerReply.SetHeader | app.js:294 | sets the header when its value is valid header text; otherwise it throws and changes nothing; it never sends |
| MediaProxy.ServerReply.SendJson | app.js:310 | the status is always set. When the JSON headers can be made, the reply gets them and the JSON body, and is sent and finished. Otherwise the TypeError escapes with its message, and nothing else changes |
| MediaProxy.ServerReply.Write | app.js:303 | a piped chunk is appended and the headers count as sent |
| MediaProxy.ServerReply.End | app.js:303 | the end of the source ends the response and sends the headers |
| MediaProxy.Pipe | app.js:303-311 | the chunks before the first error or end are forwarded. An error before any chunk sets status 500. It then either sends the JSON failure under the charset-rewritten headers or lets `res.json`'s TypeError escape. A late error leaves the headers and status as they were. The response is finished exactly on a JSON answer or the end of the stream |
| MediaProxy.ViewHeaders | app.js:293-300 | `Content-Type` is upstream's when non-empty, else `application/octet-stream`. `Cache-Control` is `public, max-age=3600`. `Content-Length` is present exactly when upstream sent a non-empty one |
| MediaProxy.ServeView | app.js:293-316 | with valid header values, the answer has exactly the view headers and the forwarded chunks, as `Pipe` says. An invalid `Content-Type` gives 500 with the JSON error naming the header, under `application/json; charset=utf-8` since no header was set. Any invalid header value gives 500 with nothing streamed, and either a JSON answer or an escaped TypeError |
| MediaProxy.StreamRoute | app.js:261-317 | an empty URL gives 400, an unparsable one 500, and a host not on the allow-list 403, each under `application/json; charset=utf-8`. The fetch happens exactly for an allowed host, with the fixed request headers. A failed fetch gives 500 with its message under the same type. Nothing escapes without a fetch. Otherwise the answer is as `ServeView` says: an invalid upstream `Content-Type` gives 500 naming it under the JSON type, any invalid header value gives 500 with nothing streamed, and valid headers give the piped answer |
| MediaProxy.UrlExtension | app.js:334-335 | the extension never contains a dot |
| MediaProxy.ExtensionAfterLastDot | app.js:334-335 | the extension is the lower-cased text after the last dot before the first `?` |
| MediaProxy.NoDotIsJpg | app.js:334-335 | without a dot before the first `?`, the extension is `jpg` |
| MediaProxy.DownloadFilename | app.js:332-344 | the file name always contains a dot. A given name with a dot is kept. No name gives `instagram_media.<ext>`. A dotless name gets `.<ext>` appended |
| MediaProxy.DownloadRequestHeaders | app.js:347-365 | same keys as the stream request. `Sec-Fetch-Dest` is `video` exactly when the URL includes `.mp4` or `video`, with the video `Accept`. Every other header is the stream request's |
| MediaProxy.InferIsFirstMatch | app.js:375-384 | the guessed content type is the type of the first row of the extension table whose fragment occurs in the URL, else `application/octet-stream` |
| MediaProxy.ImageFragmentWins | app.js:377-381 | fragments are matched anywhere in the URL, so `.jpg` in a query outranks a `.mp4` path |
| MediaProxy.DownloadContentType | app.js:375-384 | upstream's non-empty `content-type` wins, else the guess from the URL; never empty |
| MediaProxy.SaveHeaders | app.js:387-400 | the content type, an attachment disposition with the file name, `Content-Length` exactly when upstream sent one, and `no-cache` for both `Cache-Control` and `Pragma` |
| MediaProxy.ServeSave | app.js:386-430 | with valid headers the answer has exactly the save headers and the forwarded chunks, and an early stream error is answered with its message as `Pipe` says. An invalid `Content-Type` gives 500 naming it under `application/json; charset=utf-8`, since no header was set. An invalid disposition (a file name with a line break, say) gives 500 naming it, unless the `Content-Type` already set makes `res.json` throw |
| MediaProxy.DownloadRoute | app.js:322-431 | an empty URL gives 400 under `application/json; charset=utf-8`. Any other URL is fetched, with no host check, using `DownloadRequestHeaders`. A failed fetch gives 500 with its message under the same type. Otherwise the answer is as `ServeSave` says: an invalid `Content-Type` gives 500 naming it under the JSON type; an invalid disposition (a `filename` with a line break, say) gives 500 naming it, unless the `Content-Type` already set makes `res.json` throw; any invalid header value gives 500 with nothing streamed; valid headers give the piped answer, and a media answer carries `DownloadContentType` |

## Left out

- Express plumbing (routing, CORS, compression, JSON body parsing, the rate limiter), the static `/` and `/health` routes, `/api/instagram/video`, and the cache-debugging routes: they hold no logic of the resolver or proxy.
- The route's outer `catch` in `POST /api/instagram/post` is not modelled: the resolver catches every exception itself, so that branch cannot run.
- Network I/O, timeouts, redirect limits and `maxBodyLength` are not modelled: every call's outcome is an input, and body streams are finite event sequences. Backpressure and chunk timing are left out.
- NodeCache expiry (`CACHE_TTL`), its check period and its statistics are not modelled: the cache is a plain map that only grows.
- Reading configuration from the environment is not modelled: the defaults are used.
- `qs.stringify`/`JSON.stringify` of the query body are not modelled: the body is kept as its fields (shortcode, document id).
- JSON encoding of replies is not modelled, and neither is the `Content-Length` Express computes for it.
- `Date#toISOString` formatting is not modelled: an instant is kept as milliseconds from the epoch, and only the range check that makes it throw is modelled.
- PostAssembly.TimeValue: `Number(...)` of a string accepts only plain digit runs (besides the empty string). Signs, whitespace, exponents and hex forms are treated as `NaN`, and so is any non-empty array.
- Numbers are integers: floating-point values in the payload (fractional like counts or timestamps) are not modelled.
- `new URL(...)` parsing is not modelled: the route receives the parsed host name, or none when parsing throws.
- Query parameters are strings (an absent one is `""`). Repeated query parameters, which arrive as arrays, are not modelled.
- Resolver.PostCache.HandlePost: a non-string `url` is modelled by the first step that throws on it: its conversion to a string for the cache key, or else the first string method it lacks. An array `url` one of whose elements is `/share/`, which passes `includes` and goes to the redirect probe, is not modelled.
- V8 error texts are reproduced for the messages the code reads. Error stacks are reduced to their first line `Name: message`.
- Object-valued comment ids are compared structurally, whereas the code's `Set` compares objects by identity. Payload ids are strings, so this does not arise in practice.
- Logging (`console.error`) is left out.
- MediaProxy.ExtensionAfterLastDot: `toLowerCase` is modelled for capitals in the Latin-1 range (ASCII and `À`..`Þ`). Capitals beyond U+00FF in a URL's extension are kept as they are.
- MediaProxy.UrlExtension: the same Latin-1 limit of `toLowerCase` applies.
- The headers `res.send` adds besides `Content-Type` and `Content-Length` (`ETag`, and the body encoding) are not modelled.
- What happens after a TypeError escapes a handler is not modelled. This covers an uncaught exception in a stream's `error` listener and an unhandled rejection from the route's `catch`. The methods return the message as `escaped` and leave the reply as it was at the throw.
