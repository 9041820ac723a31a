/** The CSRF token and the GraphQL query request (app.js, lines 86-125). */
module Session {
  import opened Wrappers
  import opened Text

  /** What the wanted `Set-Cookie` line starts with. */
  const CsrfPrefix: string := "csrftoken="

  /** No line before position `i` starts with `csrftoken=`. */
  ghost predicate FirstCsrfAt(cookies: seq<string>, i: nat)
    requires i <= |cookies|
  {
    forall j :: 0 <= j < i ==> !(CsrfPrefix <= cookies[j])
  }

  /** The first `Set-Cookie` line that starts with `csrftoken=`. */
  function FindCsrfCookie(cookies: seq<string>): (r: Option<string>)
    ensures r.None? <==> forall i :: 0 <= i < |cookies| ==> !(CsrfPrefix <= cookies[i])
    ensures r.Some? ==>
      && CsrfPrefix <= r.value
      && exists i :: 0 <= i < |cookies| && cookies[i] == r.value && FirstCsrfAt(cookies, i)
  {
    if cookies == [] then None
    else if CsrfPrefix <= cookies[0] then Some(cookies[0])
    else
      var r := FindCsrfCookie(cookies[1..]);
      assert r.Some? ==> exists i :: 0 <= i < |cookies[1..]| && cookies[1..][i] == r.value && FirstCsrfAt(cookies[1..], i);
      assert forall i :: 0 <= i < |cookies[1..]| && FirstCsrfAt(cookies[1..], i) ==> FirstCsrfAt(cookies, i + 1);
      r
  }

  /** The piece of a `csrftoken=` line before its first `;` still starts with the name. */
  lemma PrefixInFirstPiece(c: string)
    requires CsrfPrefix <= c
    ensures CsrfPrefix <= Split(c, ';')[0]
  {
    SplitFirst(c, ';');
  }

  /** Splitting `csrftoken=…` on `=` gives the name, then the pieces of the rest. */
  lemma NamePiece(first: string)
    requires CsrfPrefix <= first
    ensures Split(first, '=') == ["csrftoken"] + Split(first[|CsrfPrefix|..], '=')
  {
    assert first == "csrftoken" + ['='] + first[|CsrfPrefix|..];
    SplitCons("csrftoken", '=', first[|CsrfPrefix|..]);
  }

  /** The second `=`-piece of the cookie's first `;`-piece. */
  function CookieValue(c: string): string
    requires CsrfPrefix <= c
  {
    var first := Split(c, ';')[0];
    PrefixInFirstPiece(c);
    NamePiece(first);
    Split(first, '=')[1]
  }

  /**
   * The token is the text after `csrftoken=` up to the first `;` or `=` (or the end of
   * the line).
   */
  lemma CookieValueIsToken(c: string)
    requires CsrfPrefix <= c
    ensures var v, rest := CookieValue(c), c[|CsrfPrefix|..];
      && v <= rest && ';' !in v && '=' !in v
      && (|v| == |rest| || rest[|v|] == ';' || rest[|v|] == '=')
  {
    var first := Split(c, ';')[0];
    SplitFirst(c, ';');
    PrefixInFirstPiece(c);
    NamePiece(first);
    var tail := first[|CsrfPrefix|..];
    SplitFirst(tail, '=');
    var v := Split(tail, '=')[0];
    assert CookieValue(c) == v;
    assert tail <= c[|CsrfPrefix|..];
    assert forall k :: 0 <= k < |v| ==> v[k] == first[|CsrfPrefix| + k];
    if |v| < |tail| {
      assert c[|CsrfPrefix|..][|v|] == tail[|v|];
    } else if |first| < |c| {
      assert c[|CsrfPrefix|..][|v|] == c[|first|];
    }
  }

  /** A line `csrftoken=<t>` followed by `;`, `=` or nothing yields exactly `t`. */
  lemma CookieValueOf(t: string, r: string)
    requires ';' !in t && '=' !in t
    requires r == [] || r[0] == ';' || r[0] == '='
    ensures CookieValue(CsrfPrefix + t + r) == t
  {
    var c := CsrfPrefix + t + r;
    assert c[|CsrfPrefix|..] == t + r;
    CookieValueIsToken(c);
    var v := CookieValue(c);
    forall k | 0 <= k < |v| ensures v[k] == (t + r)[k] {}
    assert r != [] ==> (t + r)[|t|] == r[0];
    assert v == (t + r)[..|t|] == t;
  }

  /** The CSRF token, when a `csrftoken` cookie was set. */
  function CsrfToken(cookies: seq<string>): (t: Option<string>)
    ensures t.Some? <==> FindCsrfCookie(cookies).Some?
    ensures t.Some? ==> t.value == CookieValue(FindCsrfCookie(cookies).value)
  {
    match FindCsrfCookie(cookies)
    case None => None
    case Some(c) => Some(CookieValue(c))
  }

  /** `if (csrfToken)`: a token is used only when present and non-empty. */
  predicate TokenUsable(token: Option<string>) {
    token.Some? && token.value != ""
  }

  const CsrfHeader: string := "X-CSRFToken"

  /** The fixed headers of the GraphQL query. */
  function QueryHeaders(userAgent: string): map<string, string> {
    map[
      "User-Agent" := userAgent,
      "Content-Type" := "application/x-www-form-urlencoded",
      "Referer" := "https://www.instagram.com/",
      "Accept" := "*/*",
      "Accept-Language" := "en-US,en;q=0.9",
      "Accept-Encoding" := "gzip, deflate, br",
      "Connection" := "keep-alive",
      "Sec-Fetch-Dest" := "empty",
      "Sec-Fetch-Mode" := "cors",
      "Sec-Fetch-Site" := "same-origin"
    ]
  }

  /**
   * The header object of the query, built as the source builds it: the fixed headers,
   * then `X-CSRFToken` added when the token is truthy.
   */
  method BuildQueryHeaders(userAgent: string, token: Option<string>) returns (headers: map<string, string>)
    ensures CsrfHeader in headers <==> TokenUsable(token)
    ensures CsrfHeader in headers ==> headers[CsrfHeader] == token.value
    ensures headers.Keys == QueryHeaders(userAgent).Keys + (if TokenUsable(token) then {CsrfHeader} else {})
    ensures forall k :: k in QueryHeaders(userAgent) ==> headers[k] == QueryHeaders(userAgent)[k]
  {
    headers := QueryHeaders(userAgent);
    assert CsrfHeader !in headers;
    if token.Some? && token.value != "" {
      headers := headers[CsrfHeader := token.value];
    }
  }

  /**
   * The form body of the query: `variables` is the JSON of the shortcode with three null
   * placeholders (`fetch_tagged_user_count`, `hoisted_comment_id`, `hoisted_reply_id`),
   * and `doc_id` the configured document id.
   */
  datatype QueryBody = QueryBody(shortcode: string, docId: string)

  /** The GraphQL POST the resolver sends. */
  datatype QueryRequest = QueryRequest(body: QueryBody, headers: map<string, string>)
}
