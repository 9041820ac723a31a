/**
 * `instagramGetPost` and the `POST /api/instagram/post` route (app.js, lines 56-247):
 * the pipeline from a post URL to a resolved post or a normalised error, the result cache
 * it writes, and the route's status codes.
 */
module Resolver {
  import opened Wrappers
  import opened Text
  import opened Js
  import opened Http
  import opened Config
  import opened Shortcode
  import opened Session
  import opened PostAssembly

  const NoDataMessage: string := "No data from Instagram GraphQL"
  const UnsupportedMessage: string := "Only posts/reels supported or Instagram changed response format"

  /** The keys under `data.data` that may hold the post, highest priority first. */
  const PostKeys: seq<string> := ["xdt_shortcode_media", "shortcode_media", "media"]

  /** `PostKeys[k]` is the first key under `data.data` with a truthy value. */
  ghost predicate FirstTruthyKey(data: Value, k: int)
    requires 0 <= k < |PostKeys|
  {
    && Truthy(data)
    && Truthy(OptGet(Get(data, "data"), PostKeys[k]))
    && forall j :: 0 <= j < k ==> !Truthy(OptGet(Get(data, "data"), PostKeys[j]))
  }

  /**
   * Picks the post out of the GraphQL body: a falsy body is an error, then the first
   * truthy entry among `PostKeys` wins, and none at all is an error.
   */
  function SelectPost(data: Value): (r: Result<Value, Exception>)
    ensures !Truthy(data) ==> r == Failure(Thrown("Error", NoDataMessage))
    ensures Truthy(data) ==>
      (r.Success? <==> exists k :: 0 <= k < |PostKeys| && Truthy(OptGet(Get(data, "data"), PostKeys[k])))
    ensures Truthy(data) && r.Failure? ==> r.error == Thrown("Error", UnsupportedMessage)
    ensures r.Success? ==> Truthy(r.value)
    ensures forall k :: 0 <= k < |PostKeys| && FirstTruthyKey(data, k) ==> r == Success(OptGet(Get(data, "data"), PostKeys[k]))
  {
    if !Truthy(data) then Failure(Thrown("Error", NoDataMessage))
    else
      var inner := Get(data, "data");
      assert PostKeys[0] == "xdt_shortcode_media" && PostKeys[1] == "shortcode_media" && PostKeys[2] == "media";
      var post := Or(Or(OptGet(inner, "xdt_shortcode_media"), OptGet(inner, "shortcode_media")), OptGet(inner, "media"));
      if !Truthy(post) then Failure(Thrown("Error", UnsupportedMessage)) else Success(post)
  }

  /**
   * The resolve of one URL against the three network answers it may wait for: the share
   * redirect probe, the landing page (for the CSRF cookie) and the GraphQL query. Every
   * exception along the way ends the resolve.
   */
  function Resolve(url: string, probe: Option<string>, landing: Outcome, graphql: Outcome): Result<ResolvedPost, Exception> {
    var shortcode :- ExtractShortcode(FollowShareLink(url, probe));
    var main :- Settle(landing, DefaultStatus);
    var answer :- Settle(graphql, QueryStatus);
    var post :- SelectPost(answer.data);
    AssemblePost(post)
  }

  /** Without a shortcode nothing is fetched: the answers play no part in the result. */
  lemma NoShortcodeNoFetch(url: string, probe: Option<string>, landing: Outcome, graphql: Outcome)
    requires ExtractShortcode(FollowShareLink(url, probe)).Failure?
    ensures Resolve(url, probe, landing, graphql) == Failure(Thrown("Error", NotFoundMessage))
  {
  }

  /** A failed landing-page fetch ends the resolve, whatever the GraphQL answer would be. */
  lemma LandingFailureIsFatal(url: string, probe: Option<string>, landing: Outcome, graphql: Outcome)
    requires ExtractShortcode(FollowShareLink(url, probe)).Success?
    requires Settle(landing, DefaultStatus).Failure?
    ensures Resolve(url, probe, landing, graphql) == Failure(Settle(landing, DefaultStatus).error)
  {
  }

  /**
   * A GraphQL answer with a 4xx status is not an HTTP error: its body goes on to the post
   * selection, so an empty body reports the missing data.
   */
  lemma ClientErrorBodyIsRead(url: string, probe: Option<string>, main: Response, answer: Response)
    requires ExtractShortcode(FollowShareLink(url, probe)).Success?
    requires DefaultStatus(main.status)
    requires 400 <= answer.status < 500 && !Truthy(answer.data)
    ensures Resolve(url, probe, Answered(main), Answered(answer)) == Failure(Thrown("Error", NoDataMessage))
  {
  }

  /** What the resolver returns instead of throwing. */
  datatype ErrorReply = ErrorReply(error: string, details: Value)

  const NetworkErrorMessage: string := "Network error: No response received from Instagram"
  const UnknownErrorMessage: string := "Unknown error occurred"

  /** The first line of an error's `stack`. */
  function StackHead(name: string, message: string): string {
    if message == "" then name else name + ": " + message
  }

  /**
   * The resolver's `catch`: an HTTP error reports status and body, a request without answer
   * reports the network, anything else its own message.
   */
  function Normalize(e: Exception): (r: ErrorReply)
    ensures r.error != ""
    ensures e.HttpError? ==>
      && r.error == "Instagram API error: " + NatToString(e.status) + " " + e.statusText
      && r.details == e.data
    ensures e.NoResponse? ==> r == ErrorReply(NetworkErrorMessage, Str(e.message))
    ensures e.Thrown? && e.message != "" ==> r.error == e.message
    ensures e.Thrown? && e.message == "" ==> r.error == UnknownErrorMessage
    ensures e.Thrown? ==> r.details == Str(StackHead(e.name, e.message))
  {
    match e
    case HttpError(_, status, statusText, data) =>
      ErrorReply("Instagram API error: " + NatToString(status) + " " + statusText, data)
    case NoResponse(message) => ErrorReply(NetworkErrorMessage, Str(message))
    case Thrown(name, message) =>
      ErrorReply(if message != "" then message else UnknownErrorMessage, Str(StackHead(name, message)))
  }

  /** A GraphQL answer of 500 or more is reported with its status and body. */
  lemma ServerErrorReported(url: string, probe: Option<string>, main: Response, answer: Response)
    requires ExtractShortcode(FollowShareLink(url, probe)).Success?
    requires DefaultStatus(main.status)
    requires answer.status >= 500
    ensures var r := Normalize(Resolve(url, probe, Answered(main), Answered(answer)).error);
      && r.error == "Instagram API error: " + NatToString(answer.status) + " " + answer.statusText
      && r.details == answer.data
  {
  }

  /** The cache key of a URL as the caller gave it, before any redirect. */
  function CacheKey(url: string): (key: string)
    ensures |key| == |url| + 10 && key[..10] == "instagram:" && key[10..] == url
  {
    "instagram:" + url
  }

  /** Two different URLs never share a cache entry. */
  lemma CacheKeyInjective(a: string, b: string)
    requires CacheKey(a) == CacheKey(b)
    ensures a == b
  {
    assert a == CacheKey(a)[10..];
  }

  /** An HTTP answer of the server. */
  datatype Reply = Reply(status: nat, body: ReplyBody)

  datatype ReplyBody = PostBody(post: ResolvedPost) | ErrorBody(problem: ErrorReply)

  const UrlRequiredMessage: string := "URL is required"

  /** The route's answer to a resolve: only a truthy `error` makes it a 500. */
  function Respond(result: Result<ResolvedPost, ErrorReply>): (reply: Reply)
    ensures reply.status == 500 <==> result.Failure? && result.error.error != ""
    ensures reply.status == 200 <==> !(result.Failure? && result.error.error != "")
    ensures result.Success? ==> reply.body == PostBody(result.value)
    ensures result.Failure? ==> reply.body == ErrorBody(result.error)
  {
    match result
    case Success(post) => Reply(200, PostBody(post))
    case Failure(problem) => Reply(if problem.error != "" then 500 else 200, ErrorBody(problem))
  }

  /** Every normalised failure is answered with 500. */
  lemma FailureIs500(e: Exception)
    ensures Respond(Failure(Normalize(e))).status == 500
  {
  }

  const NoPrimitiveMessage: string := "Cannot convert object to primitive value"

  /**
   * Converting `v` to a string throws: an object with its own `toString` key, which a
   * parsed JSON value can never call, or an array holding one at any depth, since an
   * array's string is the `join` of its elements' strings.
   */
  predicate StringConversionThrows(v: Value) {
    match v
    case Obj(fields) => "toString" in fields
    case Arr(items) => exists i :: 0 <= i < |items| && StringConversionThrows(items[i])
    case _ => false
  }

  /**
   * What a truthy `url` that is not a string throws. The cache key's template literal
   * converts it to a string first, which may throw; after that, arrays have `includes` but
   * no `split`, and other values have neither.
   */
  function NonStringUrlError(url: Value): (e: Exception)
    ensures StringConversionThrows(url) ==> e == Thrown("TypeError", NoPrimitiveMessage)
    ensures !StringConversionThrows(url) ==> e.Thrown? && e.name == "TypeError" && e.message != NoPrimitiveMessage
  {
    if StringConversionThrows(url) then Thrown("TypeError", NoPrimitiveMessage)
    else if url.Arr? then NotAFunction("urlMedia.split") else NotAFunction("urlMedia.includes")
  }

  /** An array whose only element is an array holding an object with a `toString` key. */
  lemma NestedToStringThrows(fields: map<string, Value>)
    requires "toString" in fields
    ensures NonStringUrlError(Arr([Arr([Obj(fields)])])) == Thrown("TypeError", NoPrimitiveMessage)
  {
    var inner := Arr([Obj(fields)]);
    assert inner.items[0] == Obj(fields);
    assert StringConversionThrows(inner);
    assert Arr([inner]).items[0] == inner;
  }

  /** The process-wide result cache, keyed by `CacheKey`; expiry is not modelled. */
  class PostCache {
    var entries: map<string, ResolvedPost>

    constructor()
      ensures entries == map[]
    {
      entries := map[];
    }

    /**
     * `instagramGetPost(url)`. Returns the result or the normalised error, and the GraphQL
     * request it sent, if it got that far. Only a success is cached; the cache is never read.
     */
    method GetPost(url: string, probe: Option<string>, landing: Outcome, graphql: Outcome)
      returns (r: Result<ResolvedPost, ErrorReply>, sent: Option<QueryRequest>)
      modifies this
      ensures r.Success? <==> Resolve(url, probe, landing, graphql).Success?
      ensures r.Success? ==>
        && r.value == Resolve(url, probe, landing, graphql).value
        && entries == old(entries)[CacheKey(url) := r.value]
      ensures r.Failure? ==>
        && r.error == Normalize(Resolve(url, probe, landing, graphql).error)
        && entries == old(entries)
      ensures sent.Some? <==>
        ExtractShortcode(FollowShareLink(url, probe)).Success? && Settle(landing, DefaultStatus).Success?
      ensures sent.Some? ==>
        && sent.value.body == QueryBody(ExtractShortcode(FollowShareLink(url, probe)).value, DocumentId)
        && (CsrfHeader in sent.value.headers <==> TokenUsable(CsrfToken(landing.response.setCookie)))
        && (CsrfHeader in sent.value.headers ==>
              sent.value.headers[CsrfHeader] == CsrfToken(landing.response.setCookie).value)
    {
      var key := CacheKey(url);
      var cached := if key in entries then Some(entries[key]) else None;
      sent := None;
      var target := FollowShareLink(url, probe);
      var shortcode := ExtractShortcode(target);
      if shortcode.Failure? {
        return Failure(Normalize(shortcode.error)), sent;
      }
      var main := Settle(landing, DefaultStatus);
      if main.Failure? {
        return Failure(Normalize(main.error)), sent;
      }
      var token := CsrfToken(main.value.setCookie);
      var headers := BuildQueryHeaders(UserAgent, token);
      sent := Some(QueryRequest(QueryBody(shortcode.value, DocumentId), headers));
      var answer := Settle(graphql, QueryStatus);
      if answer.Failure? {
        return Failure(Normalize(answer.error)), sent;
      }
      var post := SelectPost(answer.value.data);
      if post.Failure? {
        return Failure(Normalize(post.error)), sent;
      }
      var result := BuildResult(post.value);
      if result.Failure? {
        return Failure(Normalize(result.error)), sent;
      }
      entries := entries[key := result.value];
      r := Success(result.value);
    }

    /**
     * The route: a falsy `url` is a 400; a `url` that is not a string fails on its first
     * string method call inside the resolver's `try`; otherwise the resolver decides, and
     * only a string URL that resolves writes to the cache.
     */
    method HandlePost(url: Value, probe: Option<string>, landing: Outcome, graphql: Outcome)
      returns (reply: Reply)
      modifies this
      ensures reply.status == 400 <==> !Truthy(url)
      ensures !Truthy(url) ==> reply == Reply(400, ErrorBody(ErrorReply(UrlRequiredMessage, Undefined)))
      ensures reply.status == 200 <==> url.Str? && url.s != "" && Resolve(url.s, probe, landing, graphql).Success?
      ensures reply.status == 200 ==> reply.body == PostBody(Resolve(url.s, probe, landing, graphql).value)
      ensures reply.status == 500 <==> Truthy(url) && !(url.Str? && Resolve(url.s, probe, landing, graphql).Success?)
      ensures Truthy(url) && !url.Str? ==> reply.body == ErrorBody(Normalize(NonStringUrlError(url)))
      ensures url.Str? && url.s != "" && Resolve(url.s, probe, landing, graphql).Failure? ==>
        reply.body == ErrorBody(Normalize(Resolve(url.s, probe, landing, graphql).error))
      ensures url.Str? && url.s != "" && Resolve(url.s, probe, landing, graphql).Success? ==>
        entries == old(entries)[CacheKey(url.s) := Resolve(url.s, probe, landing, graphql).value]
      ensures !(url.Str? && url.s != "" && Resolve(url.s, probe, landing, graphql).Success?) ==>
        entries == old(entries)
    {
      if !Truthy(url) {
        return Reply(400, ErrorBody(ErrorReply(UrlRequiredMessage, Undefined)));
      }
      if !url.Str? {
        return Respond(Failure(Normalize(NonStringUrlError(url))));
      }
      var r, _ := GetPost(url.s, probe, landing, graphql);
      reply := Respond(r);
    }
  }
}
