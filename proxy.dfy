/**
 * The media proxy routes `GET /api/stream` and `GET /api/download` (app.js, lines 261-429):
 * the host allow-list, the outgoing request headers, the file name and content type of a
 * download, and the response object whose `headersSent` flag decides whether a late error
 * can still be answered with JSON.
 */
module MediaProxy {
  import opened Wrappers
  import opened Text
  import opened Js
  import opened Http
  import opened Config
  import opened MediaType

  const MediaUrlRequired: string := "Media URL is required"
  const BlockedHost: string := "Blocked host"
  const StreamFailed: string := "Failed to stream media"
  const DownloadFailed: string := "Failed to download media"
  const InvalidUrl: string := "Invalid URL"
  const OctetStream: string := "application/octet-stream"
  const JsonType: string := "application/json; charset=utf-8"
  const Utf8: string := "utf-8"
  /** The headers of a JSON answer given before any other header was set. */
  const JsonOnly: map<string, string> := map["Content-Type" := JsonType]

  /** Host names a streamed URL may point into. */
  const AllowedHosts: seq<string> := ["cdninstagram.com", "fbcdn.net", "instagram.com"]

  /** Some name of `hosts` occurs in `hostname`. */
  predicate AnyContained(hostname: string, hosts: seq<string>) {
    hosts != [] && (Contains(hostname, hosts[0]) || AnyContained(hostname, hosts[1..]))
  }

  predicate HostAllowed(hostname: string) {
    AnyContained(hostname, AllowedHosts)
  }

  lemma {:induction false} AnyContainedIff(hostname: string, hosts: seq<string>)
    ensures AnyContained(hostname, hosts) <==> exists i :: 0 <= i < |hosts| && Contains(hostname, hosts[i])
    decreases |hosts|
  {
    if hosts != [] {
      AnyContainedIff(hostname, hosts[1..]);
      assert forall i :: 1 <= i < |hosts| ==> hosts[1..][i - 1] == hosts[i];
    }
  }

  /**
   * The allow-list is a substring test: a host name passes exactly when one of the three
   * allowed names occurs anywhere in it, so any text around an allowed name passes too.
   */
  lemma AllowListIsSubstringTest(hostname: string, before: string, after: string)
    ensures HostAllowed(hostname) <==> exists i :: 0 <= i < |AllowedHosts| && Contains(hostname, AllowedHosts[i])
    ensures forall i :: 0 <= i < |AllowedHosts| ==> HostAllowed(before + AllowedHosts[i] + after)
  {
    AnyContainedIff(hostname, AllowedHosts);
    forall i | 0 <= i < |AllowedHosts| ensures HostAllowed(before + AllowedHosts[i] + after) {
      var h := AllowedHosts[i];
      assert h <= h;
      ContainsConcat(before, h, after, h);
      AnyContainedIff(before + h + after, AllowedHosts);
    }
  }

  /** A host name too short to hold any allowed name is blocked. */
  lemma ShortHostBlocked(hostname: string)
    requires |hostname| < 9
    ensures !HostAllowed(hostname)
  {
    AnyContainedIff(hostname, AllowedHosts);
    forall i | 0 <= i < |AllowedHosts| ensures !Contains(hostname, AllowedHosts[i]) {
      ContainsIff(hostname, AllowedHosts[i]);
    }
  }

  /** A JSON error body `{ error, details? }`. */
  function ErrorJson(error: string, details: Option<string>): (v: Value)
    ensures v.Obj? && "error" in v.fields && v.fields["error"] == Str(error)
    ensures "details" in v.fields <==> details.Some?
    ensures details.Some? ==> v.fields["details"] == Str(details.value)
  {
    if details.Some? then Obj(map["error" := Str(error), "details" := Str(details.value)])
    else Obj(map["error" := Str(error)])
  }

  /** Characters Node accepts in a header value: tab, visible ASCII, space and Latin-1. */
  predicate ValidHeaderValue(v: string) {
    forall i :: 0 <= i < |v| ==> v[i] == '\t' || ' ' <= v[i] <= '~' || '\U{80}' <= v[i] <= '\U{FF}'
  }

  /** The message of the TypeError `setHeader` throws for an invalid value. */
  function InvalidHeaderMessage(name: string): string {
    "Invalid character in header content [\"" + name + "\"]"
  }

  /** `application/json`, the type `res.json` sets when the response has none. */
  const JsonDefault: string := "application/json"

  /**
   * The `Content-Type` of a JSON answer: the type already set with its `charset` parameter
   * set to `utf-8`, the way `res.send` rewrites the type of a text body, which fails with
   * the parser's TypeError message when the type does not parse; `JsonType` when none is
   * set, which is what `res.send` makes of the `application/json` that `res.json` sets then
   * (`JsonDefaultCharset`).
   */
  function JsonContentType(h: map<string, string>): Result<string, string> {
    if "Content-Type" in h && h["Content-Type"] != "" then SetCharset(h["Content-Type"], Utf8)
    else Success(JsonType)
  }

  /**
   * The headers a JSON answer goes out with, or the TypeError message `res.json` throws:
   * the charset-bearing `Content-Type`, which `setHeader` refuses when it holds a character
   * no header may hold; the length of the encoded body replaces any `Content-Length`.
   */
  function JsonHeaders(h: map<string, string>): (r: Result<map<string, string>, string>)
    ensures r.Success? <==> JsonContentType(h).Success? && ValidHeaderValue(JsonContentType(h).value)
    ensures JsonContentType(h).Failure? ==> r == Failure(JsonContentType(h).error)
    ensures JsonContentType(h).Success? && r.Failure? ==> r.error == InvalidHeaderMessage("Content-Type")
    ensures r.Success? ==>
      && r.value.Keys == h.Keys - {"Content-Length"} + {"Content-Type"}
      && r.value["Content-Type"] == JsonContentType(h).value
      && forall k :: k in h && k != "Content-Length" && k != "Content-Type" ==> r.value[k] == h[k]
  {
    match JsonContentType(h)
    case Failure(e) => Failure(e)
    case Success(t) =>
      if ValidHeaderValue(t) then Success((h - {"Content-Length"})["Content-Type" := t])
      else Failure(InvalidHeaderMessage("Content-Type"))
  }

  lemma Utf8IsToken()
    ensures IsToken(Utf8)
  {
    var s := Utf8;
    forall i | 0 <= i < |s| ensures TokenChar(s[i]) {}
  }

  /** Lower-case ASCII letters only. */
  predicate Letters(s: string) {
    forall i :: 0 <= i < |s| ==> 'a' <= s[i] <= 'z'
  }

  /** Two words of lower-case letters joined by `/` make a lower-case `type/subtype`. */
  lemma LettersTypeName(a: string, b: string)
    requires a != [] && b != [] && Letters(a) && Letters(b)
    ensures IsTypeName(a + "/" + b) && ToLower(a + "/" + b) == a + "/" + b
  {
    var s := a + "/" + b;
    assert s[|a|] == '/';
    assert forall k :: 0 <= k < |a| ==> s[k] == a[k];
    assert Find(s, '/') == |a|;
    assert s[..|a|] == a && s[|a| + 1..] == b;
    forall k | 0 <= k < |s| ensures LowerChar(s[k]) == s[k] {
      if k < |a| {
        assert s[k] == a[k];
      } else if k > |a| {
        assert s[k] == b[k - |a| - 1];
      }
    }
    LowerFixed(s);
  }

  /** `application/json` is a lower-case `type/subtype`. */
  lemma JsonDefaultIsTypeName()
    ensures IsTypeName(JsonDefault) && ToLower(JsonDefault) == JsonDefault
  {
    var a, b := "application", "json";
    assert Letters(a) && Letters(b);
    LettersTypeName(a, b);
    assert a + "/" + b == JsonDefault;
  }

  /** Setting the charset of a lower-case `type/subtype` appends it as the only parameter. */
  lemma LettersCharset(a: string, b: string, charset: string)
    requires a != [] && b != [] && Letters(a) && Letters(b) && IsToken(charset)
    ensures SetCharset(a + "/" + b, charset) == Success(a + "/" + b + "; charset=" + charset)
  {
    LettersTypeName(a, b);
    BareTypeGetsCharset(a + "/" + b, charset);
  }

  /**
   * Setting the charset of `application/json` to `utf-8` gives `JsonType`, and doing it
   * again changes nothing.
   */
  lemma JsonDefaultCharset(t: string)
    requires t == JsonDefault
    ensures SetCharset(t, Utf8) == Success(JsonType)
    ensures SetCharset(SetCharset(t, Utf8).value, Utf8) == Success(JsonType)
  {
    var a, b := "application", "json";
    assert Letters(a) && Letters(b);
    assert a + "/" + b == t;
    assert t + "; charset=" + Utf8 == JsonType;
    Utf8IsToken();
    LettersCharset(a, b, Utf8);
    SetCharsetIdempotent(t, Utf8);
  }

  /**
   * The JSON type: a bare `type/subtype` lower-cased with `; charset=utf-8` after it; the
   * parser's error for a type that does not parse; for one that parses, no error but an
   * existing parameter value that cannot be written back; and a type that already went
   * through it comes back unchanged.
   */
  lemma JsonContentTypeSpec(h: map<string, string>)
    ensures "Content-Type" in h && IsTypeName(h["Content-Type"]) ==>
      JsonContentType(h) == Success(ToLower(h["Content-Type"]) + "; charset=" + Utf8)
    ensures "Content-Type" in h && h["Content-Type"] != "" && Parse(h["Content-Type"]).Failure? ==>
      JsonContentType(h) == Failure(Parse(h["Content-Type"]).error)
    ensures "Content-Type" in h && h["Content-Type"] != "" && Parse(h["Content-Type"]).Success? && JsonContentType(h).Failure? ==>
      JsonContentType(h).error == InvalidParameterValue
    ensures JsonContentType(h).Success? ==> SetCharset(JsonContentType(h).value, Utf8) == JsonContentType(h)
  {
    Utf8IsToken();
    if "Content-Type" in h && h["Content-Type"] != "" {
      var current := h["Content-Type"];
      if IsTypeName(current) {
        BareTypeGetsCharset(current, Utf8);
      }
      if Parse(current).Success? {
        SetCharsetFailure(current, Utf8);
      }
      if SetCharset(current, Utf8).Success? {
        SetCharsetIdempotent(current, Utf8);
      }
    } else {
      JsonDefaultCharset(JsonDefault);
    }
  }

  lemma ValidHeaderConcat(a: string, b: string)
    requires ValidHeaderValue(a) && ValidHeaderValue(b)
    ensures ValidHeaderValue(a + b)
  {
    forall i | 0 <= i < |a + b| ensures (a + b)[i] == if i < |a| then a[i] else b[i - |a|] {}
  }

  /** The JSON type and the charset suffix are valid header text. */
  lemma JsonTextValid()
    ensures ValidHeaderValue(JsonType) && ValidHeaderValue("; charset=" + Utf8)
  {
    var s, c := JsonType, "; charset=" + Utf8;
    forall i | 0 <= i < |s| ensures ' ' <= s[i] <= '~' {}
    forall i | 0 <= i < |c| ensures ' ' <= c[i] <= '~' {}
  }

  /** A reply with no `Content-Type` answers JSON with `JsonType` and its other headers. */
  lemma JsonHeadersOfNone(h: map<string, string>)
    requires "Content-Type" !in h
    ensures JsonHeaders(h).Success?
    ensures JsonHeaders(h).value == (h - {"Content-Length"})["Content-Type" := JsonType]
  {
    JsonTextValid();
  }

  /** A lower-cased `type/subtype` is valid header text. */
  lemma LowerTypeNameValid(t: string)
    requires IsTypeName(t)
    ensures ValidHeaderValue(ToLower(t))
  {
    ToLowerTypeName(t);
    TypeNameChars(ToLower(t));
  }

  /** A lower-cased `type/subtype` with the charset suffix is valid header text. */
  lemma TypeNameCharsetValid(t: string)
    requires IsTypeName(t)
    ensures ValidHeaderValue(ToLower(t) + "; charset=" + Utf8)
  {
    var l, c := ToLower(t), "; charset=" + Utf8;
    assert l + c == l + "; charset=" + Utf8;
    JsonTextValid();
    LowerTypeNameValid(t);
    ValidHeaderConcat(l, c);
  }

  /**
   * A JSON error on a response whose `Content-Type` is a bare `type/subtype`, such as the
   * `image/jpeg` of a proxied picture, goes out as that type lower-cased with
   * `; charset=utf-8` after it.
   */
  lemma JsonHeadersOfTypeName(h: map<string, string>)
    requires "Content-Type" in h && IsTypeName(h["Content-Type"])
    ensures JsonHeaders(h).Success?
    ensures JsonHeaders(h).value["Content-Type"] == ToLower(h["Content-Type"]) + "; charset=" + Utf8
  {
    TypeNameCharsetValid(h["Content-Type"]);
    JsonContentTypeSpec(h);
  }

  /** The first `;` of a `type/subtype` followed by `;` is the last character. */
  lemma SemicolonAfterTypeName(t: string)
    requires IsTypeName(t)
    ensures Find(t + ";", ';') == |t| && (t + ";")[..|t|] == t
  {
    var h := t + ";";
    TypeNameChars(t);
    forall k | 0 <= k < |t| ensures h[k] != ';' {
      assert h[k] == t[k];
      if TokenChar(t[k]) {
        TokenCharIsPlain(t[k]);
      }
    }
    assert h[|t|] == ';';
  }

  lemma ParamsFailAt(h: string, p: nat)
    requires p < |h| && MatchParam(h, p).None?
    ensures ParseParams(h, p, []) == Failure(InvalidParameterFormat)
  {
  }

  /** A `type/subtype` followed by a bare `;` fails to parse at the parameter. */
  lemma ParseTrailingSemicolon(t: string)
    requires IsTypeName(t)
    ensures Parse(t + ";") == Failure(InvalidParameterFormat)
  {
    var h := t + ";";
    SemicolonAfterTypeName(t);
    TrimTypeName(t);
    assert SkipSpaces(h, |t| + 1) == |h|;
    assert ParamName(h, |t|).None?;
    assert MatchParam(h, |t|).None?;
    ParamsFailAt(h, |t|);
    assert Trim(h[..Find(h, ';')]) == t;
  }

  /**
   * A `type/subtype` followed by a bare `;`, as in `image/jpeg;`, does not parse, so
   * `res.json` throws on a response that carries it.
   */
  lemma TrailingSemicolonThrows(t: string)
    requires IsTypeName(t)
    ensures JsonHeaders(map["Content-Type" := t + ";"]) == Failure(InvalidParameterFormat)
  {
    ParseTrailingSemicolon(t);
    assert JsonContentType(map["Content-Type" := t + ";"]) == SetCharset(t + ";", Utf8);
  }

  type Bytes = seq<bv8>

  /**
   * The server's response object: status, headers set so far, whether they went out, and
   * what was sent: a JSON body, or streamed chunks.
   */
  class ServerReply {
    var statusCode: nat
    var headers: map<string, string>
    var headersSent: bool
    var json: Option<Value>
    var streamed: seq<Bytes>
    var finished: bool

    constructor()
      ensures statusCode == 200 && headers == map[] && !headersSent
      ensures json.None? && streamed == [] && !finished
    {
      statusCode := 200;
      headers := map[];
      headersSent := false;
      json := None;
      streamed := [];
      finished := false;
    }

    /** `res.setHeader(name, value)`: throws, changing nothing, on an invalid value. */
    method SetHeader(name: string, value: string) returns (ok: bool)
      requires !headersSent
      modifies this
      ensures ok == ValidHeaderValue(value)
      ensures headers == if ok then old(headers)[name := value] else old(headers)
      ensures statusCode == old(statusCode) && headersSent == old(headersSent)
      ensures json == old(json) && streamed == old(streamed) && finished == old(finished)
    {
      ok := ValidHeaderValue(value);
      if ok {
        headers := headers[name := value];
      }
    }

    /**
     * `res.status(code).json(body)`: the status is set first; then the body goes out with
     * the JSON headers, or, when those cannot be made, the TypeError escapes (`escaped`
     * holds its message) and nothing else changes.
     */
    method SendJson(code: nat, body: Value) returns (escaped: Option<string>)
      requires !headersSent
      modifies this
      ensures statusCode == code && streamed == old(streamed)
      ensures escaped.Some? <==> JsonHeaders(old(headers)).Failure?
      ensures escaped.Some? ==>
        && escaped.value == JsonHeaders(old(headers)).error
        && headers == old(headers) && json == old(json) && !headersSent && finished == old(finished)
      ensures escaped.None? ==>
        headers == JsonHeaders(old(headers)).value && json == Some(body) && headersSent && finished
    {
      statusCode := code;
      var next := JsonHeaders(headers);
      if next.Failure? {
        return Some(next.error);
      }
      escaped := None;
      headers := next.value;
      json := Some(body);
      headersSent := true;
      finished := true;
    }

    /** A chunk written by `pipe`; the first write sends the headers. */
    method Write(chunk: Bytes)
      requires !finished
      modifies this
      ensures headersSent && streamed == old(streamed) + [chunk]
      ensures statusCode == old(statusCode) && headers == old(headers) && json == old(json) && !finished
    {
      headersSent := true;
      streamed := streamed + [chunk];
    }

    /** `pipe` ends the response when the source ends. */
    method End()
      requires !finished
      modifies this
      ensures headersSent && finished
      ensures statusCode == old(statusCode) && headers == old(headers) && json == old(json) && streamed == old(streamed)
    {
      headersSent := true;
      finished := true;
    }
  }

  /** What the upstream body stream emits. */
  datatype StreamEvent = Data(chunk: Bytes) | StreamError(message: string) | EndOfStream

  /** The chunks emitted before the stream errors or ends. */
  function ChunksBefore(events: seq<StreamEvent>): seq<Bytes> {
    if events == [] || !events[0].Data? then [] else [events[0].chunk] + ChunksBefore(events[1..])
  }

  /** The event that stops the stream, if one came. */
  function Stop(events: seq<StreamEvent>): (r: Option<StreamEvent>)
    ensures r.Some? ==> !r.value.Data?
  {
    if events == [] then None else if !events[0].Data? then Some(events[0]) else Stop(events[1..])
  }

  /** The stream fails before its first chunk, while the headers can still change. */
  predicate EarlyError(events: seq<StreamEvent>) {
    Stop(events).Some? && Stop(events).value.StreamError? && ChunksBefore(events) == []
  }

  /**
   * What piping `events` leaves in a reply that had headers `h` and status `status`: the
   * chunks before the stop; on an early error, status 500 and either the JSON `failure`
   * with the JSON headers or, when `res.json` throws, its message in `escaped` and nothing
   * sent; otherwise the headers as they were.
   */
  predicate Piped(reply: ServerReply, h: map<string, string>, status: nat, events: seq<StreamEvent>,
                  failure: Value, escaped: Option<string>)
    reads reply
  {
    && reply.streamed == ChunksBefore(events)
    && reply.statusCode == (if EarlyError(events) then 500 else status)
    && (escaped.Some? <==> EarlyError(events) && JsonHeaders(h).Failure?)
    && (escaped.Some? ==> escaped.value == JsonHeaders(h).error)
    && (reply.json.Some? <==> EarlyError(events) && JsonHeaders(h).Success?)
    && (reply.json.Some? ==> reply.json == Some(failure) && reply.headers == JsonHeaders(h).value)
    && (reply.json.None? ==> reply.headers == h)
    && (reply.finished <==> reply.json.Some? || Stop(events) == Some(EndOfStream))
    && (reply.headersSent <==> reply.finished || ChunksBefore(events) != [])
  }

  /**
   * `response.data.pipe(res)` with the `error` handler: chunks are forwarded until the
   * stream stops; an error is answered with the JSON `failure` only while no header has
   * gone out, and otherwise the response is left unfinished. A throw from `res.json` in
   * the handler is returned in `escaped`.
   */
  method Pipe(reply: ServerReply, events: seq<StreamEvent>, failure: Value) returns (escaped: Option<string>)
    requires !reply.headersSent && !reply.finished && reply.streamed == [] && reply.json.None?
    modifies reply
    ensures Piped(reply, old(reply.headers), old(reply.statusCode), events, failure, escaped)
  {
    var i := 0;
    while i < |events| && events[i].Data?
      invariant 0 <= i <= |events|
      invariant forall k :: 0 <= k < i ==> events[k].Data?
      invariant reply.streamed + ChunksBefore(events[i..]) == ChunksBefore(events)
      invariant Stop(events[i..]) == Stop(events)
      invariant reply.headersSent <==> i > 0
      invariant !reply.finished && reply.json.None?
      invariant reply.statusCode == old(reply.statusCode) && reply.headers == old(reply.headers)
    {
      assert events[i..][1..] == events[i + 1..];
      reply.Write(events[i].chunk);
      i := i + 1;
    }
    escaped := None;
    if i == |events| {
      assert events[i..] == [];
      return;
    }
    assert ChunksBefore(events[i..]) == [] && Stop(events[i..]) == Some(events[i]);
    match events[i]
    case EndOfStream =>
      reply.End();
    case StreamError(_) =>
      if !reply.headersSent {
        escaped := reply.SendJson(500, failure);
      }
  }

  /** The request headers of the media fetch in `/api/stream`. */
  function StreamRequestHeaders(): map<string, string> {
    map[
      "User-Agent" := UserAgent,
      "Referer" := "https://www.instagram.com/",
      "Accept" := "image/avif,image/webp,image/apng,image/svg+xml,image/*,*/*;q=0.8,video/mp4,video/webm,video/ogg,video/*;q=0.9",
      "Accept-Language" := "en-US,en;q=0.9",
      "Accept-Encoding" := "gzip, deflate, br",
      "Connection" := "keep-alive",
      "Sec-Fetch-Dest" := "image",
      "Sec-Fetch-Mode" := "no-cors",
      "Sec-Fetch-Site" := "cross-site",
      "Cache-Control" := "no-cache",
      "Pragma" := "no-cache"
    ]
  }

  /** Every value of `h` can be set as a header. */
  predicate ValidHeaders(h: map<string, string>) {
    forall k :: k in h ==> ValidHeaderValue(h[k])
  }

  /** The fixed header values the routes set are valid header text. */
  lemma FixedValuesValid()
    ensures ValidHeaderValue("public, max-age=3600") && ValidHeaderValue("no-cache")
  {
    var a, b := "public, max-age=3600", "no-cache";
    forall i | 0 <= i < |a| ensures ' ' <= a[i] <= '~' {}
    forall i | 0 <= i < |b| ensures ' ' <= b[i] <= '~' {}
  }

  /** The headers `/api/stream` puts on its answer, from the upstream response's headers. */
  function ViewHeaders(upstream: map<string, string>): (h: map<string, string>)
    ensures "Content-Type" in h && "Cache-Control" in h
    ensures h["Content-Type"] != "" && h["Cache-Control"] == "public, max-age=3600"
    ensures HeaderValue(upstream, "content-type") != "" ==> h["Content-Type"] == upstream["content-type"]
    ensures HeaderValue(upstream, "content-type") == "" ==> h["Content-Type"] == OctetStream
    ensures "Content-Length" in h <==> HeaderValue(upstream, "content-length") != ""
    ensures "Content-Length" in h ==> h["Content-Length"] == upstream["content-length"]
    ensures h.Keys <= {"Content-Type", "Cache-Control", "Content-Length"}
  {
    var contentType := if HeaderValue(upstream, "content-type") != "" then upstream["content-type"] else OctetStream;
    var length := HeaderValue(upstream, "content-length");
    var base := map["Content-Type" := contentType, "Cache-Control" := "public, max-age=3600"];
    if length != "" then base["Content-Length" := length] else base
  }

  /**
   * Lines 293-311 of `/api/stream` once the upstream answered: set the view headers in
   * order, then pipe. A header `setHeader` refuses is answered like any other exception,
   * and a throw from `res.json` while answering is returned in `escaped`.
   */
  method ServeView(reply: ServerReply, upstream: map<string, string>, events: seq<StreamEvent>)
    returns (escaped: Option<string>)
    requires reply.statusCode == 200 && reply.headers == map[]
    requires !reply.headersSent && !reply.finished && reply.streamed == [] && reply.json.None?
    modifies reply
    ensures !ValidHeaders(ViewHeaders(upstream)) ==>
      reply.statusCode == 500 && reply.streamed == [] && (reply.json.Some? <==> escaped.None?)
    ensures !ValidHeaderValue(ViewHeaders(upstream)["Content-Type"]) ==>
      && escaped.None? && reply.json == Some(ErrorJson(StreamFailed, Some(InvalidHeaderMessage("Content-Type"))))
      && reply.headers == JsonOnly
    ensures ValidHeaders(ViewHeaders(upstream)) ==>
      Piped(reply, ViewHeaders(upstream), 200, events, ErrorJson(StreamFailed, None), escaped)
  {
    var view := ViewHeaders(upstream);
    FixedValuesValid();
    JsonHeadersOfNone(map[]);
    var ok := reply.SetHeader("Content-Type", view["Content-Type"]);
    if !ok {
      escaped := reply.SendJson(500, ErrorJson(StreamFailed, Some(InvalidHeaderMessage("Content-Type"))));
      return;
    }
    ok := reply.SetHeader("Cache-Control", "public, max-age=3600");
    if "Content-Length" in view {
      ok := reply.SetHeader("Content-Length", view["Content-Length"]);
      if !ok {
        escaped := reply.SendJson(500, ErrorJson(StreamFailed, Some(InvalidHeaderMessage("Content-Length"))));
        return;
      }
    }
    assert reply.headers == view;
    escaped := Pipe(reply, events, ErrorJson(StreamFailed, None));
  }

  /**
   * The status and body `/api/stream` answers with before fetching anything: a missing URL,
   * a URL `new URL` cannot parse, a host off the allow-list; `None` when the fetch goes ahead.
   */
  function StreamRejection(url: string, hostname: Option<string>): Option<(nat, Value)> {
    if url == "" then Some((400, ErrorJson(MediaUrlRequired, None)))
    else if hostname.None? then Some((500, ErrorJson(StreamFailed, Some(InvalidUrl))))
    else if !HostAllowed(hostname.value) then Some((403, ErrorJson(BlockedHost, None)))
    else None
  }

  /**
   * `GET /api/stream?url=`. `hostname` is what `new URL(url)` parses, `None` when it throws;
   * `upstream` and `events` are the fetch's answer and its body stream. `sent` is the
   * request made upstream, if any; `escaped` the TypeError that leaves the handler, if any.
   * The answers given before any header is set carry `application/json; charset=utf-8`.
   */
  method StreamRoute(url: string, hostname: Option<string>, upstream: Outcome, events: seq<StreamEvent>)
    returns (reply: ServerReply, sent: Option<map<string, string>>, escaped: Option<string>)
    ensures fresh(reply)
    ensures url == "" ==>
      && reply.statusCode == 400 && reply.json == Some(ErrorJson(MediaUrlRequired, None))
      && reply.headers == JsonOnly
    ensures url != "" && hostname.None? ==>
      && reply.statusCode == 500 && reply.json == Some(ErrorJson(StreamFailed, Some(InvalidUrl)))
      && reply.headers == JsonOnly
    ensures url != "" && hostname.Some? && !HostAllowed(hostname.value) ==>
      && reply.statusCode == 403 && reply.json == Some(ErrorJson(BlockedHost, None))
      && reply.headers == JsonOnly
    ensures sent.Some? <==> url != "" && hostname.Some? && HostAllowed(hostname.value)
    ensures sent.Some? ==> sent.value == StreamRequestHeaders()
    ensures sent.None? ==> escaped.None?
    ensures sent.Some? && Settle(upstream, DefaultStatus).Failure? ==>
      && reply.statusCode == 500
      && reply.json == Some(ErrorJson(StreamFailed, Some(MessageOf(Settle(upstream, DefaultStatus).error))))
      && reply.headers == JsonOnly
      && reply.streamed == [] && escaped.None?
    ensures sent.Some? && Settle(upstream, DefaultStatus).Success? ==>
      var view := ViewHeaders(upstream.response.headers);
      && (!ValidHeaders(view) ==> reply.statusCode == 500 && reply.streamed == [] && (reply.json.Some? <==> escaped.None?))
      && (!ValidHeaderValue(view["Content-Type"]) ==>
            && escaped.None? && reply.json == Some(ErrorJson(StreamFailed, Some(InvalidHeaderMessage("Content-Type"))))
            && reply.headers == JsonOnly)
      && (ValidHeaders(view) ==> Piped(reply, view, 200, events, ErrorJson(StreamFailed, None), escaped))
  {
    reply := new ServerReply();
    sent := None;
    JsonHeadersOfNone(map[]);
    var rejection := StreamRejection(url, hostname);
    if rejection.Some? {
      escaped := reply.SendJson(rejection.value.0, rejection.value.1);
      return;
    }
    sent := Some(StreamRequestHeaders());
    var answer := Settle(upstream, DefaultStatus);
    if answer.Failure? {
      escaped := reply.SendJson(500, ErrorJson(StreamFailed, Some(MessageOf(answer.error))));
      return;
    }
    escaped := ServeView(reply, answer.value.headers, events);
  }

  /** The part of a URL before its first `?` is `base` when `tail` is empty or a query. */
  lemma BeforeQuery(base: string, tail: string)
    requires '?' !in base
    requires tail == "" || tail[0] == '?'
    ensures Split(base + tail, '?')[0] == base
  {
    if tail == "" {
      assert base + tail == base;
      SplitNoSeparator(base, '?');
    } else {
      var query := tail[1..];
      assert tail == ['?'] + query;
      calc {
        Split(base + tail, '?');
      == { assert base + tail == base + ['?'] + query; }
        Split(base + ['?'] + query, '?');
      == { SplitCons(base, '?', query); }
        [base] + Split(query, '?');
      }
    }
  }

  /**
   * `url.split('?')[0].split('.')`, last piece lower-cased when there are several pieces,
   * `jpg` otherwise.
   */
  function UrlExtension(url: string): (ext: string)
    ensures '.' !in ext
  {
    var pieces := Split(Split(url, '?')[0], '.');
    if |pieces| > 1 then
      var e := ToLower(pieces[|pieces| - 1]);
      assert forall i :: 0 <= i < |e| ==> e[i] == LowerChar(pieces[|pieces| - 1][i]);
      e
    else "jpg"
  }

  /** The extension is the lower-cased text after the last dot before the query. */
  lemma ExtensionAfterLastDot(stem: string, ext: string, tail: string)
    requires '.' !in ext && '?' !in stem && '?' !in ext
    requires tail == "" || tail[0] == '?'
    ensures UrlExtension(stem + ['.'] + ext + tail) == ToLower(ext)
  {
    var base := stem + ['.'] + ext;
    assert '?' !in base;
    BeforeQuery(base, tail);
    SplitLast(stem, '.', ext);
  }

  /** Without a dot before the query the extension is `jpg`. */
  lemma NoDotIsJpg(base: string, tail: string)
    requires '.' !in base && '?' !in base
    requires tail == "" || tail[0] == '?'
    ensures UrlExtension(base + tail) == "jpg"
  {
    BeforeQuery(base, tail);
    SplitNoSeparator(base, '.');
  }

  /** Anything followed by a dot contains a dot. */
  lemma DotFound(a: string, e: string)
    ensures Contains(a + "." + e, ".")
  {
    assert OccursAt(a + "." + e, ".", |a|);
    ContainsIff(a + "." + e, ".");
  }

  /**
   * The download's file name: the given `filename` when it has a dot; `instagram_media.<ext>`
   * when none is given; the given name plus `.<ext>` otherwise.
   */
  function DownloadFilename(url: string, filename: string): (name: string)
    ensures Contains(name, ".")
    ensures filename != "" && Contains(filename, ".") ==> name == filename
    ensures filename == "" ==> name == "instagram_media." + UrlExtension(url)
    ensures filename != "" && !Contains(filename, ".") ==> name == filename + "." + UrlExtension(url)
  {
    var ext := UrlExtension(url);
    var first := if filename != "" then filename else "instagram_media" + "." + ext;
    DotFound("instagram_media", ext);
    DotFound(first, ext);
    if Contains(first, ".") then first else first + "." + ext
  }

  /** The URL mentions `.mp4` or `video`. */
  predicate LooksLikeVideo(url: string) {
    Contains(url, ".mp4") || Contains(url, "video")
  }

  const DownloadAccept: string :=
    "image/avif,image/webp,image/apng,image/svg+xml,image/*,*/*;q=0.8,video/mp4,video/webm,video/ogg,video/*;q=0.9,application/ogg;q=0.7,audio/*;q=0.6,*/*;q=0.5"
  const VideoAccept: string := "video/mp4,video/webm,video/ogg,video/*;q=0.9,application/ogg;q=0.7,audio/*;q=0.6,*/*;q=0.5"

  /** The request headers of the media fetch in `/api/download`. */
  function DownloadRequestHeaders(url: string): (h: map<string, string>)
    ensures h.Keys == StreamRequestHeaders().Keys
    ensures h["Sec-Fetch-Dest"] == "video" <==> LooksLikeVideo(url)
    ensures h["Accept"] == (if LooksLikeVideo(url) then VideoAccept else DownloadAccept)
    ensures forall k :: k in h && k != "Accept" && k != "Sec-Fetch-Dest" ==> h[k] == StreamRequestHeaders()[k]
  {
    var base := StreamRequestHeaders()["Accept" := DownloadAccept];
    if LooksLikeVideo(url) then base["Accept" := VideoAccept]["Sec-Fetch-Dest" := "video"] else base
  }

  /** File-name fragments and the content type each implies, in the order they are tried. */
  const ContentTypeTable: seq<(seq<string>, string)> := [
    ([".jpg", ".jpeg"], "image/jpeg"),
    ([".png"], "image/png"),
    ([".gif"], "image/gif"),
    ([".webp"], "image/webp"),
    ([".mp4"], "video/mp4"),
    ([".webm"], "video/webm")
  ]

  /** The type of the first table row with a fragment in `url`, else the octet stream. */
  function FirstMatch(url: string, table: seq<(seq<string>, string)>): string {
    if table == [] then OctetStream
    else if AnyContained(url, table[0].0) then table[0].1
    else FirstMatch(url, table[1..])
  }

  /** The content type guessed from the URL when upstream sent none. */
  function InferContentType(url: string): (t: string)
    ensures t != ""
  {
    if Contains(url, ".jpg") || Contains(url, ".jpeg") then "image/jpeg"
    else if Contains(url, ".png") then "image/png"
    else if Contains(url, ".gif") then "image/gif"
    else if Contains(url, ".webp") then "image/webp"
    else if Contains(url, ".mp4") then "video/mp4"
    else if Contains(url, ".webm") then "video/webm"
    else OctetStream
  }

  lemma AnyContainedOne(url: string, a: string)
    ensures AnyContained(url, [a]) <==> Contains(url, a)
  {
    assert [a][1..] == [];
  }

  lemma AnyContainedTwo(url: string, a: string, b: string)
    ensures AnyContained(url, [a, b]) <==> Contains(url, a) || Contains(url, b)
  {
    assert [a, b][1..] == [b];
    AnyContainedOne(url, b);
  }

  /** The guess is the first row of `ContentTypeTable` whose fragment occurs in the URL. */
  lemma InferIsFirstMatch(url: string)
    ensures InferContentType(url) == FirstMatch(url, ContentTypeTable)
  {
    var t0 := ContentTypeTable;
    var t1, t2, t3, t4, t5 := t0[1..], t0[2..], t0[3..], t0[4..], t0[5..];
    assert t0[0] == ([".jpg", ".jpeg"], "image/jpeg") && t1[0] == ([".png"], "image/png");
    assert t2[0] == ([".gif"], "image/gif") && t3[0] == ([".webp"], "image/webp");
    assert t4[0] == ([".mp4"], "video/mp4") && t5[0] == ([".webm"], "video/webm");
    assert t1[1..] == t2 && t2[1..] == t3 && t3[1..] == t4 && t4[1..] == t5 && t5[1..] == [];
    AnyContainedTwo(url, ".jpg", ".jpeg");
    AnyContainedOne(url, ".png");
    AnyContainedOne(url, ".gif");
    AnyContainedOne(url, ".webp");
    AnyContainedOne(url, ".mp4");
    AnyContainedOne(url, ".webm");
    assert FirstMatch(url, t5) == if Contains(url, ".webm") then "video/webm" else OctetStream;
    assert FirstMatch(url, t4) == if Contains(url, ".mp4") then "video/mp4" else FirstMatch(url, t5);
    assert FirstMatch(url, t3) == if Contains(url, ".webp") then "image/webp" else FirstMatch(url, t4);
    assert FirstMatch(url, t2) == if Contains(url, ".gif") then "image/gif" else FirstMatch(url, t3);
    assert FirstMatch(url, t1) == if Contains(url, ".png") then "image/png" else FirstMatch(url, t2);
  }

  /** The fragment test ignores where it occurs: an image fragment anywhere outranks `.mp4`. */
  lemma ImageFragmentWins(path: string, query: string)
    ensures InferContentType(path + ".mp4?name=a" + ".jpg" + query) == "image/jpeg"
  {
    assert ".jpg" <= ".jpg";
    ContainsConcat(path + ".mp4?name=a", ".jpg", query, ".jpg");
  }

  /** `response.headers['content-type']`, or the guess when that is missing or empty. */
  function DownloadContentType(upstream: map<string, string>, url: string): (t: string)
    ensures t != ""
    ensures HeaderValue(upstream, "content-type") != "" ==> t == upstream["content-type"]
    ensures HeaderValue(upstream, "content-type") == "" ==> t == InferContentType(url)
  {
    if HeaderValue(upstream, "content-type") != "" then upstream["content-type"] else InferContentType(url)
  }

  /** `attachment; filename="<name>"`. */
  function Disposition(name: string): string {
    "attachment; filename=\"" + name + "\""
  }

  /** The headers `/api/download` puts on its answer. */
  function SaveHeaders(upstream: map<string, string>, url: string, filename: string): (h: map<string, string>)
    ensures "Content-Type" in h && "Content-Disposition" in h && "Cache-Control" in h && "Pragma" in h
    ensures h["Content-Type"] == DownloadContentType(upstream, url)
    ensures h["Content-Disposition"] == Disposition(DownloadFilename(url, filename))
    ensures h["Cache-Control"] == "no-cache" && h["Pragma"] == "no-cache"
    ensures "Content-Length" in h <==> HeaderValue(upstream, "content-length") != ""
    ensures "Content-Length" in h ==> h["Content-Length"] == upstream["content-length"]
    ensures h.Keys <= {"Content-Type", "Content-Disposition", "Content-Length", "Cache-Control", "Pragma"}
  {
    var base := map[
      "Content-Type" := DownloadContentType(upstream, url),
      "Content-Disposition" := Disposition(DownloadFilename(url, filename)),
      "Cache-Control" := "no-cache",
      "Pragma" := "no-cache"];
    var length := HeaderValue(upstream, "content-length");
    if length != "" then base["Content-Length" := length] else base
  }

  /** The message of the error that stops the stream, or the empty string. */
  function StopMessage(events: seq<StreamEvent>): string {
    match Stop(events)
    case Some(StreamError(m)) => m
    case _ => ""
  }

  /**
   * Lines 386-415 of `/api/download` once the upstream answered: set the headers in order,
   * then pipe; a stream error is answered with its message while no header went out, and
   * a throw from `res.json` while answering is returned in `escaped`.
   */
  method ServeSave(reply: ServerReply, save: map<string, string>, events: seq<StreamEvent>)
    returns (escaped: Option<string>)
    requires "Content-Type" in save && "Content-Disposition" in save && "Cache-Control" in save && "Pragma" in save
    requires save["Cache-Control"] == "no-cache" && save["Pragma"] == "no-cache"
    requires save.Keys <= {"Content-Type", "Content-Disposition", "Content-Length", "Cache-Control", "Pragma"}
    requires reply.statusCode == 200 && reply.headers == map[]
    requires !reply.headersSent && !reply.finished && reply.streamed == [] && reply.json.None?
    modifies reply
    ensures !ValidHeaders(save) ==>
      reply.statusCode == 500 && reply.streamed == [] && (reply.json.Some? <==> escaped.None?)
    ensures !ValidHeaderValue(save["Content-Type"]) ==>
      && escaped.None? && reply.json == Some(ErrorJson(DownloadFailed, Some(InvalidHeaderMessage("Content-Type"))))
      && reply.headers == JsonOnly
    ensures !ValidHeaderValue(save["Content-Disposition"]) && ValidHeaderValue(save["Content-Type"]) ==>
      && (escaped.Some? <==> JsonHeaders(map["Content-Type" := save["Content-Type"]]).Failure?)
      && (escaped.None? ==> reply.json == Some(ErrorJson(DownloadFailed, Some(InvalidHeaderMessage("Content-Disposition")))))
    ensures ValidHeaders(save) ==>
      Piped(reply, save, 200, events, ErrorJson(DownloadFailed, Some(StopMessage(events))), escaped)
  {
    FixedValuesValid();
    JsonHeadersOfNone(map[]);
    var ok := reply.SetHeader("Content-Type", save["Content-Type"]);
    if !ok {
      escaped := reply.SendJson(500, ErrorJson(DownloadFailed, Some(InvalidHeaderMessage("Content-Type"))));
      return;
    }
    ok := reply.SetHeader("Content-Disposition", save["Content-Disposition"]);
    if !ok {
      escaped := reply.SendJson(500, ErrorJson(DownloadFailed, Some(InvalidHeaderMessage("Content-Disposition"))));
      return;
    }
    if "Content-Length" in save {
      ok := reply.SetHeader("Content-Length", save["Content-Length"]);
      if !ok {
        escaped := reply.SendJson(500, ErrorJson(DownloadFailed, Some(InvalidHeaderMessage("Content-Length"))));
        return;
      }
    }
    ok := reply.SetHeader("Cache-Control", "no-cache");
    ok := reply.SetHeader("Pragma", "no-cache");
    assert reply.headers == save;
    escaped := Pipe(reply, events, ErrorJson(DownloadFailed, Some(StopMessage(events))));
  }

  /**
   * `GET /api/download?url=&filename=` (an absent `filename` is the empty string). Any
   * non-empty URL is fetched: this route has no host check. `escaped` is the TypeError
   * that leaves the handler, if any.
   */
  method DownloadRoute(url: string, filename: string, upstream: Outcome, events: seq<StreamEvent>)
    returns (reply: ServerReply, sent: Option<map<string, string>>, escaped: Option<string>)
    ensures fresh(reply)
    ensures url == "" ==>
      && reply.statusCode == 400 && reply.json == Some(ErrorJson(MediaUrlRequired, None))
      && reply.headers == JsonOnly && escaped.None?
    ensures sent.Some? <==> url != ""
    ensures sent.Some? ==> sent.value == DownloadRequestHeaders(url)
    ensures sent.Some? && Settle(upstream, DefaultStatus).Failure? ==>
      && reply.statusCode == 500
      && reply.json == Some(ErrorJson(DownloadFailed, Some(MessageOf(Settle(upstream, DefaultStatus).error))))
      && reply.headers == JsonOnly && escaped.None?
    ensures sent.Some? && Settle(upstream, DefaultStatus).Success? ==>
      var save := SaveHeaders(upstream.response.headers, url, filename);
      && (!ValidHeaders(save) ==> reply.statusCode == 500 && reply.streamed == [] && (reply.json.Some? <==> escaped.None?))
      && (!ValidHeaderValue(save["Content-Type"]) ==>
            && escaped.None? && reply.json == Some(ErrorJson(DownloadFailed, Some(InvalidHeaderMessage("Content-Type"))))
            && reply.headers == JsonOnly)
      && (!ValidHeaderValue(save["Content-Disposition"]) && ValidHeaderValue(save["Content-Type"]) ==>
            && (escaped.Some? <==> JsonHeaders(map["Content-Type" := save["Content-Type"]]).Failure?)
            && (escaped.None? ==> reply.json == Some(ErrorJson(DownloadFailed, Some(InvalidHeaderMessage("Content-Disposition"))))))
      && (ValidHeaders(save) ==>
            && Piped(reply, save, 200, events, ErrorJson(DownloadFailed, Some(StopMessage(events))), escaped)
            && (reply.json.None? ==> reply.headers["Content-Type"] == DownloadContentType(upstream.response.headers, url)))
  {
    reply := new ServerReply();
    sent := None;
    JsonHeadersOfNone(map[]);
    if url == "" {
      escaped := reply.SendJson(400, ErrorJson(MediaUrlRequired, None));
      return;
    }
    sent := Some(DownloadRequestHeaders(url));
    var answer := Settle(upstream, DefaultStatus);
    if answer.Failure? {
      escaped := reply.SendJson(500, ErrorJson(DownloadFailed, Some(MessageOf(answer.error))));
      return;
    }
    escaped := ServeSave(reply, SaveHeaders(answer.value.headers, url, filename), events);
  }
}
