/**
 * What Express does to an already-set `Content-Type` before it sends a string body
 * (`res.json` ends in `res.send`): the header is parsed as a media type, its `charset`
 * parameter is set to `utf-8`, and the type is written back in canonical form, with a
 * lower-cased type, parameters sorted by name and values quoted only where needed. The
 * grammar is the media type of section 3.1.1.1 of RFC 7231, as the `content-type` package
 * parses and formats it; each of its refusals throws a TypeError.
 */
module MediaType {
  import opened Wrappers
  import opened Text

  const ArgumentRequired: string := "argument string is required"
  const InvalidMediaType: string := "invalid media type"
  const InvalidParameterFormat: string := "invalid parameter format"
  const InvalidParameterValue: string := "invalid parameter value"

  /** A character of a token (`tchar` in section 3.2.6 of RFC 7230). */
  predicate TokenChar(c: char) {
    || 'a' <= c <= 'z' || 'A' <= c <= 'Z' || '0' <= c <= '9'
    || c == '!' || '#' <= c <= '\'' || c == '*' || c == '+' || c == '-' || c == '.'
    || c == '^' || c == '_' || c == '`' || c == '|' || c == '~'
  }

  predicate IsToken(s: string) {
    s != [] && forall i :: 0 <= i < |s| ==> TokenChar(s[i])
  }

  /** Position of the first `c` in `s`, or `|s|` when there is none (`indexOf`). */
  function Find(s: string, c: char): (i: nat)
    ensures i <= |s|
    ensures forall k :: 0 <= k < i ==> s[k] != c
    ensures i < |s| ==> s[i] == c
  {
    if s == [] || s[0] == c then 0 else 1 + Find(s[1..], c)
  }

  /** `type/subtype`, both tokens. */
  predicate IsTypeName(s: string) {
    var i := Find(s, '/');
    i < |s| && IsToken(s[..i]) && IsToken(s[i + 1..])
  }

  /** The white space and line terminators `String.prototype.trim` removes. */
  predicate JsSpace(c: char) {
    || c == '\t' || c == '\n' || c == '\U{0B}' || c == '\U{0C}' || c == '\r' || c == ' '
    || c == '\U{A0}' || c == '\U{1680}' || '\U{2000}' <= c <= '\U{200A}'
    || c == '\U{2028}' || c == '\U{2029}' || c == '\U{202F}' || c == '\U{205F}'
    || c == '\U{3000}' || c == '\U{FEFF}'
  }

  function TrimStart(s: string): (r: string)
    ensures r == [] || !JsSpace(r[0])
    ensures |r| <= |s| && r == s[|s| - |r|..]
  {
    if s != [] && JsSpace(s[0]) then TrimStart(s[1..]) else s
  }

  function TrimEnd(s: string): (r: string)
    ensures r == [] || !JsSpace(r[|r| - 1])
    ensures r <= s
  {
    if s != [] && JsSpace(s[|s| - 1]) then TrimEnd(s[..|s| - 1]) else s
  }

  /** `s.trim()`. */
  function Trim(s: string): string {
    TrimEnd(TrimStart(s))
  }

  /** A parameter as parsed: its lower-cased name and its unquoted value. */
  datatype Param = Param(name: string, value: string)

  /** A parsed media type: the lower-cased `type/subtype` and its parameters, sorted by name. */
  datatype ContentType = ContentType(typeName: string, params: seq<Param>)

  /** The end of the run of spaces starting at `p`. */
  function SkipSpaces(h: string, p: nat): (q: nat)
    requires p <= |h|
    ensures p <= q <= |h|
    ensures forall i :: p <= i < q ==> h[i] == ' '
    ensures q < |h| ==> h[q] != ' '
    decreases |h| - p
  {
    if p < |h| && h[p] == ' ' then SkipSpaces(h, p + 1) else p
  }

  /** The end of the run of token characters starting at `p`. */
  function TokenEnd(h: string, p: nat): (q: nat)
    requires p <= |h|
    ensures p <= q <= |h|
    ensures forall i :: p <= i < q ==> TokenChar(h[i])
    ensures q < |h| ==> !TokenChar(h[q])
    decreases |h| - p
  {
    if p < |h| && TokenChar(h[p]) then TokenEnd(h, p + 1) else p
  }

  /** A character that may stand unescaped inside a quoted string. */
  predicate QdText(c: char) {
    c == '\U{0B}' || c == ' ' || c == '!' || '#' <= c <= '[' || ']' <= c <= '~' || '\U{80}' <= c <= '\U{FF}'
  }

  /** A character that may follow a backslash inside a quoted string. */
  predicate QuotedPairChar(c: char) {
    c == '\U{0B}' || ' ' <= c <= '\U{FF}'
  }

  /**
   * Scanning a quoted string's contents from `p`: the position of its closing quote, or
   * `None` when the contents break off or hold a character the grammar refuses.
   */
  function QuotedEnd(h: string, p: nat): (q: Option<nat>)
    requires p <= |h|
    ensures q.Some? ==> p <= q.value < |h| && h[q.value] == '"'
    decreases |h| - p
  {
    if p == |h| then None
    else if h[p] == '"' then Some(p)
    else if QdText(h[p]) then QuotedEnd(h, p + 1)
    else if h[p] == '\\' && p + 1 < |h| && QuotedPairChar(h[p + 1]) then QuotedEnd(h, p + 2)
    else None
  }

  /** Every backslash pair replaced by its second character. */
  function Unescape(s: string): string
    decreases |s|
  {
    if s == [] then []
    else if s[0] == '\\' && |s| >= 2 && QuotedPairChar(s[1]) then [s[1]] + Unescape(s[2..])
    else [s[0]] + Unescape(s[1..])
  }

  /**
   * One parameter `; name = value` (spaces allowed around the name and the `=`, the
   * value a token or a quoted string) starting exactly at `p`, with the position after it
   * and its trailing spaces.
   */
  function MatchParam(h: string, p: nat): (m: Option<(Param, nat)>)
    requires p <= |h|
    ensures m.Some? ==> p < m.value.1 <= |h|
  {
    if p == |h| || h[p] != ';' then None
    else
      match ParamName(h, p)
      case None => None
      case Some((name, v)) =>
        match ParamValue(h, v)
        case None => None
        case Some((value, q)) => Some((Param(name, value), q))
  }

  /** After the `;` at `p`: the name, lower-cased, and the position just past the `=`. */
  function ParamName(h: string, p: nat): (r: Option<(string, nat)>)
    requires p < |h|
    ensures r.Some? ==> p < r.value.1 <= |h|
  {
    var n0 := SkipSpaces(h, p + 1);
    var n1 := TokenEnd(h, n0);
    var eq := SkipSpaces(h, n1);
    if n1 == n0 || eq == |h| || h[eq] != '=' then None
    else Some((ToLower(h[n0..n1]), eq + 1))
  }

  /**
   * The value after optional spaces at `p`, a quoted string (unescaped) or a token, and
   * the position after it and its trailing spaces.
   */
  function ParamValue(h: string, p: nat): (r: Option<(string, nat)>)
    requires p <= |h|
    ensures r.Some? ==> p < r.value.1 <= |h|
  {
    var v0 := SkipSpaces(h, p);
    if v0 < |h| && h[v0] == '"' then
      match QuotedEnd(h, v0 + 1)
      case None => None
      case Some(close) => Some((Unescape(h[v0 + 1..close]), SkipSpaces(h, close + 1)))
    else
      var v1 := TokenEnd(h, v0);
      if v1 == v0 then None else Some((h[v0..v1], SkipSpaces(h, v1)))
  }

  /** Code-unit order of strings, the order `Array.prototype.sort` puts names in. */
  predicate Below(a: string, b: string) {
    if a == [] then b != []
    else if b == [] then false
    else a[0] < b[0] || (a[0] == b[0] && Below(a[1..], b[1..]))
  }

  /** Sets `param.name` to `param.value` in a name-ordered parameter list. */
  function Insert(ps: seq<Param>, param: Param): seq<Param> {
    if ps == [] then [param]
    else if ps[0].name == param.name then [param] + ps[1..]
    else if Below(param.name, ps[0].name) then [param] + ps
    else [ps[0]] + Insert(ps[1..], param)
  }

  /**
   * The parameters from `p` to the end of the header, each stored over any earlier one of
   * the same name; a gap or a malformed parameter throws.
   */
  function ParseParams(h: string, p: nat, ps: seq<Param>): Result<seq<Param>, string>
    requires p <= |h|
    decreases |h| - p
  {
    if p == |h| then Success(ps)
    else
      match MatchParam(h, p)
      case None => Failure(InvalidParameterFormat)
      case Some((param, q)) => ParseParams(h, q, Insert(ps, param))
  }

  /** `contentType.parse(header)`: the trimmed text before the first `;` must be a type. */
  function Parse(header: string): (r: Result<ContentType, string>)
    ensures header == "" ==> r == Failure(ArgumentRequired)
    ensures header != "" && !IsTypeName(Trim(header[..Find(header, ';')])) ==> r == Failure(InvalidMediaType)
    ensures r.Success? ==> r.value.typeName == ToLower(Trim(header[..Find(header, ';')]))
  {
    if header == "" then Failure(ArgumentRequired)
    else
      var semi := Find(header, ';');
      var typeName := Trim(header[..semi]);
      if !IsTypeName(typeName) then Failure(InvalidMediaType)
      else
        var ps :- ParseParams(header, semi, []);
        Success(ContentType(ToLower(typeName), ps))
  }

  /** Text a quoted string can carry. */
  predicate TextChar(c: char) {
    c == '\U{0B}' || ' ' <= c <= '~' || '\U{80}' <= c <= '\U{FF}'
  }

  predicate IsText(s: string) {
    s != [] && forall i :: 0 <= i < |s| ==> TextChar(s[i])
  }

  /** A backslash before every backslash and double quote. */
  function Escape(s: string): string {
    if s == [] then []
    else if s[0] == '\\' || s[0] == '"' then ['\\', s[0]] + Escape(s[1..])
    else [s[0]] + Escape(s[1..])
  }

  /** A parameter value as written out: bare when a token, quoted otherwise. */
  function QString(v: string): (r: Result<string, string>)
    ensures IsToken(v) ==> r == Success(v)
    ensures r.Failure? <==> v != [] && !IsToken(v) && !IsText(v)
    ensures r.Failure? ==> r.error == InvalidParameterValue
  {
    if IsToken(v) then Success(v)
    else if v != [] && !IsText(v) then Failure(InvalidParameterValue)
    else Success("\"" + Escape(v) + "\"")
  }

  /** `; name=value` for a parameter. */
  function ParamText(p: Param): Result<string, string> {
    match QString(p.value)
    case Failure(e) => Failure(e)
    case Success(v) => Success("; " + p.name + "=" + v)
  }

  /** The parameters written out in list order; the first unwritable value throws. */
  function FormatParams(ps: seq<Param>): (r: Result<string, string>)
    ensures r.Success? <==> forall i :: 0 <= i < |ps| ==> ParamText(ps[i]).Success?
    ensures r.Failure? ==> r.error == InvalidParameterValue
  {
    if ps == [] then Success("")
    else
      match ParamText(ps[0])
      case Failure(e) => Failure(e)
      case Success(first) =>
        match FormatParams(ps[1..])
        case Failure(e) =>
          assert forall i :: 0 <= i < |ps[1..]| ==> ps[1..][i] == ps[i + 1];
          Failure(e)
        case Success(rest) => Success(first + rest)
  }

  /**
   * `contentType.format(t)`. Its checks that the type and every name are well formed
   * cannot fail on a parsed value, so only a value that is neither a token nor quotable
   * text throws.
   */
  function Format(t: ContentType): Result<string, string> {
    var ps :- FormatParams(t.params);
    Success(t.typeName + ps)
  }

  /**
   * Express's `setCharset(type, charset)`: an empty type or charset is returned as it is;
   * otherwise the type is parsed, its `charset` set, and the result formatted.
   */
  function SetCharset(mediaType: string, charset: string): (r: Result<string, string>)
    ensures mediaType == "" || charset == "" ==> r == Success(mediaType)
    ensures mediaType != "" && charset != "" && Parse(mediaType).Failure? ==> r == Failure(Parse(mediaType).error)
  {
    if mediaType == "" || charset == "" then Success(mediaType)
    else
      var parsed :- Parse(mediaType);
      Format(ContentType(parsed.typeName, Insert(parsed.params, Param("charset", charset))))
  }

  /** The value stored under `name`, if any. */
  function Lookup(ps: seq<Param>, name: string): Option<string> {
    if ps == [] then None
    else if ps[0].name == name then Some(ps[0].value)
    else Lookup(ps[1..], name)
  }

  /** No character of `s` has a lower-case form other than itself. */
  ghost predicate IsLower(s: string) {
    forall i :: 0 <= i < |s| ==> LowerChar(s[i]) == s[i]
  }

  /** Lower-casing leaves lower-case text as it is and makes any text lower-case. */
  lemma LowerFixed(s: string)
    ensures IsLower(s) ==> ToLower(s) == s
    ensures IsLower(ToLower(s))
  {
    forall i | 0 <= i < |s| ensures LowerChar(ToLower(s)[i]) == ToLower(s)[i] {
      LowerCharFacts(s[i]);
    }
  }

  /** Names strictly increase along the list, so no name occurs twice. */
  ghost predicate Ordered(ps: seq<Param>) {
    forall i, j :: 0 <= i < j < |ps| ==> Below(ps[i].name, ps[j].name)
  }

  /** Every name is a lower-case token, as parsing leaves it. */
  ghost predicate LowerNames(ps: seq<Param>) {
    forall i :: 0 <= i < |ps| ==> IsToken(ps[i].name) && IsLower(ps[i].name)
  }

  lemma {:induction false} BelowIrreflexive(a: string)
    ensures !Below(a, a)
    decreases |a|
  {
    if a != [] {
      BelowIrreflexive(a[1..]);
    }
  }

  lemma {:induction false} BelowTotal(a: string, b: string)
    ensures a == b || Below(a, b) || Below(b, a)
    decreases |a|
  {
    if a != [] && b != [] && a[0] == b[0] {
      BelowTotal(a[1..], b[1..]);
      assert a == [a[0]] + a[1..] && b == [b[0]] + b[1..];
    }
  }

  lemma {:induction false} BelowAsymmetric(a: string, b: string)
    requires Below(a, b)
    ensures !Below(b, a)
    decreases |a|
  {
    if a != [] && b != [] && a[0] == b[0] {
      BelowAsymmetric(a[1..], b[1..]);
    }
  }

  lemma {:induction false} BelowTransitive(a: string, b: string, c: string)
    requires Below(a, b) && Below(b, c)
    ensures Below(a, c)
    decreases |a|
  {
    if a != [] && a[0] == b[0] && b[0] == c[0] {
      BelowTransitive(a[1..], b[1..], c[1..]);
    }
  }

  /** `Insert` adds `param` and otherwise only keeps what was there. */
  lemma {:induction false} InsertMembers(ps: seq<Param>, param: Param)
    ensures param in Insert(ps, param)
    ensures forall x :: x in Insert(ps, param) ==> x == param || x in ps
    decreases |ps|
  {
    if ps != [] && ps[0].name != param.name && !Below(param.name, ps[0].name) {
      InsertMembers(ps[1..], param);
      assert Insert(ps, param) == [ps[0]] + Insert(ps[1..], param);
    }
  }

  /** `Insert` is a map update: the new name maps to the new value, every other name as before. */
  lemma {:induction false} InsertLookup(ps: seq<Param>, param: Param, name: string)
    ensures Lookup(Insert(ps, param), name) == if name == param.name then Some(param.value) else Lookup(ps, name)
    decreases |ps|
  {
    if ps != [] && ps[0].name != param.name && !Below(param.name, ps[0].name) {
      InsertLookup(ps[1..], param, name);
      assert Insert(ps, param)[1..] == Insert(ps[1..], param);
    } else if ps != [] && ps[0].name == param.name {
      assert Insert(ps, param)[1..] == ps[1..];
    } else if ps != [] {
      assert Insert(ps, param)[1..] == ps;
    }
  }

  /** `Insert` keeps the list sorted by name, as `Object.keys(...).sort()` lists it. */
  lemma {:induction false} InsertKeepsOrder(ps: seq<Param>, param: Param)
    requires Ordered(ps)
    ensures Ordered(Insert(ps, param))
    decreases |ps|
  {
    if ps == [] {
    } else if ps[0].name == param.name {
      var r := Insert(ps, param);
      assert r == [param] + ps[1..];
      forall i, j | 0 <= i < j < |r| ensures Below(r[i].name, r[j].name) {
        assert r[j].name == ps[j].name && r[i].name == ps[i].name;
      }
    } else if Below(param.name, ps[0].name) {
      var r := Insert(ps, param);
      assert r == [param] + ps;
      forall i, j | 0 <= i < j < |r| ensures Below(r[i].name, r[j].name) {
        if i == 0 && j > 1 {
          BelowTransitive(param.name, ps[0].name, ps[j - 1].name);
        }
      }
    } else {
      var rest := Insert(ps[1..], param);
      assert Ordered(ps[1..]) by {
        forall i, j | 0 <= i < j < |ps[1..]| ensures Below(ps[1..][i].name, ps[1..][j].name) {
          assert ps[1..][i] == ps[i + 1] && ps[1..][j] == ps[j + 1];
        }
      }
      InsertKeepsOrder(ps[1..], param);
      InsertMembers(ps[1..], param);
      BelowTotal(param.name, ps[0].name);
      var r := Insert(ps, param);
      assert r == [ps[0]] + rest;
      forall i, j | 0 <= i < j < |r| ensures Below(r[i].name, r[j].name) {
        assert r[j] == rest[j - 1];
        if i == 0 {
          assert rest[j - 1] in rest;
          if rest[j - 1] != param {
            assert rest[j - 1] in ps[1..];
            var k :| 1 <= k < |ps| && ps[k] == rest[j - 1];
          }
        } else {
          assert r[i] == rest[i - 1];
        }
      }
    }
  }

  /** Storing a value a name already holds changes nothing. */
  lemma {:induction false} InsertPresent(ps: seq<Param>, param: Param)
    requires Ordered(ps) && Lookup(ps, param.name) == Some(param.value)
    ensures Insert(ps, param) == ps
    decreases |ps|
  {
    if ps[0].name != param.name {
      LookupFound(ps[1..], param.name);
      var k :| 0 <= k < |ps[1..]| && ps[1..][k].name == param.name;
      assert ps[k + 1].name == param.name;
      BelowAsymmetric(ps[0].name, param.name);
      assert Ordered(ps[1..]) by {
        forall i, j | 0 <= i < j < |ps[1..]| ensures Below(ps[1..][i].name, ps[1..][j].name) {
          assert ps[1..][i] == ps[i + 1] && ps[1..][j] == ps[j + 1];
        }
      }
      InsertPresent(ps[1..], param);
      assert ps == [ps[0]] + ps[1..];
    }
  }

  lemma {:induction false} LookupFound(ps: seq<Param>, name: string)
    requires Lookup(ps, name).Some?
    ensures exists k :: 0 <= k < |ps| && ps[k].name == name
    decreases |ps|
  {
    if ps[0].name != name {
      LookupFound(ps[1..], name);
      var k :| 0 <= k < |ps[1..]| && ps[1..][k].name == name;
      assert ps[k + 1].name == name;
    }
  }

  /** Token characters are none of the characters the grammar separates them with. */
  lemma TokenCharIsPlain(c: char)
    requires TokenChar(c)
    ensures c != ' ' && c != ';' && c != '=' && c != '"' && c != '/' && !JsSpace(c)
  {
  }

  /** Lower-casing keeps token characters tokens and leaves `/` alone. */
  lemma LowerCharFacts(c: char)
    ensures LowerChar(LowerChar(c)) == LowerChar(c)
    ensures TokenChar(c) ==> TokenChar(LowerChar(c))
    ensures LowerChar(c) == '/' <==> c == '/'
  {
  }

  lemma ToLowerIdempotent(s: string)
    ensures ToLower(ToLower(s)) == ToLower(s)
  {
    forall i | 0 <= i < |s| ensures ToLower(ToLower(s))[i] == ToLower(s)[i] {
      LowerCharFacts(s[i]);
    }
  }

  lemma ToLowerToken(s: string)
    requires IsToken(s)
    ensures IsToken(ToLower(s)) && ToLower(ToLower(s)) == ToLower(s)
  {
    forall i | 0 <= i < |s| ensures TokenChar(ToLower(s)[i]) {
      LowerCharFacts(s[i]);
    }
    ToLowerIdempotent(s);
  }

  /** A lower-cased type name is still a type name. */
  lemma ToLowerTypeName(s: string)
    requires IsTypeName(s)
    ensures IsTypeName(ToLower(s)) && ToLower(ToLower(s)) == ToLower(s)
  {
    var i := Find(s, '/');
    var l := ToLower(s);
    forall k | 0 <= k < |s| ensures (l[k] == '/' <==> s[k] == '/') {
      LowerCharFacts(s[k]);
    }
    assert Find(l, '/') == i;
    assert l[..i] == ToLower(s[..i]);
    assert l[i + 1..] == ToLower(s[i + 1..]);
    ToLowerToken(s[..i]);
    ToLowerToken(s[i + 1..]);
    ToLowerIdempotent(s);
  }

  /** Every character of a type name is a token character or the one `/`. */
  lemma TypeNameChars(s: string)
    requires IsTypeName(s)
    ensures |s| >= 3 && TokenChar(s[0]) && TokenChar(s[|s| - 1])
    ensures forall k :: 0 <= k < |s| ==> TokenChar(s[k]) || s[k] == '/'
  {
    var i := Find(s, '/');
    assert s[0] == s[..i][0];
    assert s[|s| - 1] == s[i + 1..][|s| - i - 2];
    forall k | 0 <= k < |s| ensures TokenChar(s[k]) || s[k] == '/' {
      if k < i {
        assert s[k] == s[..i][k];
      } else if k > i {
        assert s[k] == s[i + 1..][k - i - 1];
      }
    }
  }

  /** A type name has nothing for `trim` to remove. */
  lemma TrimTypeName(s: string)
    requires IsTypeName(s)
    ensures Trim(s) == s
  {
    TypeNameChars(s);
    TokenCharIsPlain(s[0]);
    TokenCharIsPlain(s[|s| - 1]);
  }

  /** Unescaping undoes escaping. */
  lemma {:induction false} UnescapeEscape(s: string)
    ensures Unescape(Escape(s)) == s
    decreases |s|
  {
    if s != [] {
      UnescapeEscape(s[1..]);
      if s[0] == '\\' || s[0] == '"' {
        assert Escape(s) == ['\\', s[0]] + Escape(s[1..]);
        assert Escape(s)[2..] == Escape(s[1..]);
      } else {
        assert Escape(s) == [s[0]] + Escape(s[1..]);
        assert Escape(s)[1..] == Escape(s[1..]);
      }
      assert s == [s[0]] + s[1..];
    }
  }

  /** The scan of a quoted string stops at the quote after an escaped text. */
  lemma {:induction false} QuotedEndOfEscape(h: string, q: nat, s: string)
    requires forall i :: 0 <= i < |s| ==> TextChar(s[i])
    requires q + |Escape(s)| < |h|
    requires h[q..q + |Escape(s)|] == Escape(s) && h[q + |Escape(s)|] == '"'
    ensures QuotedEnd(h, q) == Some(q + |Escape(s)|)
    decreases |s|
  {
    if s != [] {
      var rest := Escape(s[1..]);
      if s[0] == '\\' || s[0] == '"' {
        assert Escape(s) == ['\\', s[0]] + rest;
        assert h[q] == '\\' && h[q + 1] == s[0];
        assert h[q + 2..q + 2 + |rest|] == rest;
        QuotedEndOfEscape(h, q + 2, s[1..]);
      } else {
        assert Escape(s) == [s[0]] + rest;
        assert h[q] == s[0];
        assert h[q + 1..q + 1 + |rest|] == rest;
        QuotedEndOfEscape(h, q + 1, s[1..]);
      }
    }
  }

  /** A parameter `Format` can write back: a lower-case token name and a writable value. */
  ghost predicate WellFormedParam(p: Param) {
    IsToken(p.name) && IsLower(p.name) && QString(p.value).Success?
  }

  /** A written value starts with a token character or a quote, and never with a space. */
  lemma QStringShape(v: string)
    requires QString(v).Success?
    ensures var w := QString(v).value;
      && w != []
      && (IsToken(v) ==> w == v)
      && (!IsToken(v) ==> w == "\"" + Escape(v) + "\"" && forall i :: 0 <= i < |v| ==> TextChar(v[i]))
  {
  }

  /** A token written at `p` and followed by a non-token character is scanned to its end. */
  lemma TokenRun(h: string, p: nat, s: string)
    requires IsToken(s) && p + |s| <= |h| && h[p..p + |s|] == s
    requires p + |s| < |h| ==> !TokenChar(h[p + |s|])
    ensures TokenEnd(h, p) == p + |s| && h[p] == s[0]
  {
    forall k | p <= k < p + |s| ensures TokenChar(h[k]) {
      assert h[k] == h[p..p + |s|][k - p];
    }
    assert h[p] == h[p..p + |s|][0];
  }

  /** Reading `; name=` at `a`: one space, then the name up to the `=` before `v`. */
  lemma NameScan(h: string, a: nat, name: string, v: nat)
    requires IsToken(name) && IsLower(name) && v == a + 3 + |name| && v <= |h|
    requires h[a + 1] == ' ' && h[a + 2..a + 2 + |name|] == name && h[a + 2 + |name|] == '='
    ensures ParamName(h, a) == Some((name, v))
  {
    TokenRun(h, a + 2, name);
    LowerFixed(name);
    TokenCharIsPlain(name[0]);
    assert SkipSpaces(h, a + 1) == a + 2;
    assert SkipSpaces(h, a + 2 + |name|) == a + 2 + |name|;
  }

  /** Reading a token value from `v0` to `q`, where the parameter ends. */
  lemma TokenValueScan(h: string, v0: nat, v: string, q: nat)
    requires IsToken(v) && q == v0 + |v| && q <= |h| && h[v0..q] == v
    requires q < |h| ==> h[q] == ';'
    ensures ParamValue(h, v0) == Some((v, q))
  {
    TokenRun(h, v0, v);
    TokenCharIsPlain(v[0]);
    assert SkipSpaces(h, v0) == v0;
    assert SkipSpaces(h, q) == q;
  }

  /** Reading a quoted value from `v0` to `q`, where the parameter ends. */
  lemma QuotedValueScan(h: string, v0: nat, s: string, q: nat)
    requires forall i :: 0 <= i < |s| ==> TextChar(s[i])
    requires q == v0 + |Escape(s)| + 2 && q <= |h|
    requires h[v0] == '"' && h[q - 1] == '"'
    requires h[v0 + 1..q - 1] == Escape(s)
    requires q < |h| ==> h[q] == ';'
    ensures ParamValue(h, v0) == Some((s, q))
  {
    QuotedEndOfEscape(h, v0 + 1, s);
    UnescapeEscape(s);
    assert SkipSpaces(h, v0) == v0;
    assert SkipSpaces(h, q) == q;
  }

  /** The name and the value read back make the parameter, ending where the value ends. */
  lemma MatchParamParts(h: string, a: nat, param: Param, v: nat, q: nat)
    requires a < |h| && h[a] == ';'
    requires ParamName(h, a) == Some((param.name, v))
    requires v <= |h| && ParamValue(h, v) == Some((param.value, q))
    ensures MatchParam(h, a) == Some((param, q))
  {
  }

  /** Where the pieces of `; name=value` lie when it is written from `a` to `q`. */
  lemma ParamLayout(h: string, a: nat, name: string, v: string, q: nat)
    requires q == a + 3 + |name| + |v| && q <= |h| && h[a..q] == "; " + name + "=" + v
    ensures h[a] == ';' && h[a + 1] == ' ' && h[a + 2 + |name|] == '='
    ensures h[a + 2..a + 2 + |name|] == name
    ensures h[a + 3 + |name|..q] == v
  {
    var text := h[a..q];
    assert h[a] == text[0] && h[a + 1] == text[1] && h[a + 2 + |name|] == text[2 + |name|];
    forall k | 0 <= k < |name| ensures h[a + 2..a + 2 + |name|][k] == name[k] {
      assert h[a + 2 + k] == text[2 + k];
    }
    forall k | 0 <= k < |v| ensures h[a + 3 + |name|..q][k] == v[k] {
      assert h[a + 3 + |name| + k] == text[3 + |name| + k];
    }
  }

  /** The inside of a quoted string written from `p` to `q`. */
  lemma QuotedLayout(h: string, p: nat, e: string, q: nat)
    requires q == p + |e| + 2 && q <= |h| && h[p..q] == "\"" + e + "\""
    ensures h[p] == '"' && h[q - 1] == '"' && h[p + 1..q - 1] == e
  {
    var w := h[p..q];
    assert h[p] == w[0] && h[q - 1] == w[1 + |e|];
    forall k | 0 <= k < |e| ensures h[p + 1..q - 1][k] == e[k] {
      assert h[p + 1 + k] == w[1 + k];
    }
  }

  /** A value `QString` writes from `v0` to `q`, followed by `;` or the end, is read back. */
  lemma ValueOfText(h: string, v0: nat, value: string, w: string, q: nat)
    requires QString(value) == Success(w)
    requires q == v0 + |w| && q <= |h| && h[v0..q] == w
    requires q < |h| ==> h[q] == ';'
    ensures ParamValue(h, v0) == Some((value, q))
  {
    QStringShape(value);
    if IsToken(value) {
      TokenValueScan(h, v0, value, q);
    } else {
      QuotedLayout(h, v0, Escape(value), q);
      QuotedValueScan(h, v0, value, q);
    }
  }

  /** A text written at `p` followed by another, the first ending at `q`: where each lies. */
  lemma SliceSplit(h: string, p: nat, x: string, y: string, q: nat)
    requires p <= |h| && h[p..] == x + y && q == p + |x|
    ensures q <= |h| && h[p..q] == x && h[q..] == y
  {
    assert h[p..q] == h[p..][..|x|];
    assert h[q..] == h[p..][|x|..];
  }

  /**
   * The parameter `ParamText` writes, found at `p` and followed by `;` or the end, is read
   * back as the same parameter, ending at `q`.
   */
  lemma MatchParamIn(h: string, p: nat, param: Param, rest: string, q: nat)
    requires WellFormedParam(param)
    requires rest == [] || rest[0] == ';'
    requires p <= |h| && h[p..] == ParamText(param).value + rest && q == p + |ParamText(param).value|
    ensures MatchParam(h, p) == Some((param, q))
    ensures q <= |h| && h[q..] == rest
  {
    var w := QString(param.value).value;
    var text := "; " + param.name + "=" + w;
    assert ParamText(param) == Success(text);
    SliceSplit(h, p, text, rest, q);
    var v0 := p + 3 + |param.name|;
    ParamLayout(h, p, param.name, w, q);
    if rest != [] {
      assert h[q] == h[q..][0];
    }
    NameScan(h, p, param.name, v0);
    ValueOfText(h, v0, param.value, w, q);
    MatchParamParts(h, p, param, v0, q);
  }

  /** Written parameters are empty or start with their `;`. */
  lemma FormatParamsStart(ps: seq<Param>)
    requires FormatParams(ps).Success?
    ensures FormatParams(ps).value == [] || FormatParams(ps).value[0] == ';'
  {
    if ps != [] {
      assert ParamText(ps[0]).Success?;
    }
  }

  /** A parameter named after every name in an ordered list is stored at its end. */
  lemma {:induction false} InsertAtEnd(ps: seq<Param>, param: Param)
    requires Ordered(ps + [param])
    ensures Insert(ps, param) == ps + [param]
    decreases |ps|
  {
    if ps != [] {
      var all := ps + [param];
      assert all[0] == ps[0] && all[|ps|] == param;
      BelowIrreflexive(param.name);
      BelowAsymmetric(ps[0].name, param.name);
      assert Ordered(ps[1..] + [param]) by {
        var tail := ps[1..] + [param];
        forall i, j | 0 <= i < j < |tail| ensures Below(tail[i].name, tail[j].name) {
          assert tail[i] == all[i + 1] && tail[j] == all[j + 1];
        }
      }
      InsertAtEnd(ps[1..], param);
      assert ps + [param] == [ps[0]] + (ps[1..] + [param]);
    }
  }

  /** Every parameter of a list a parsed value can hold, and every prefix of it, is ordered. */
  lemma OrderedPrefix(ps: seq<Param>, n: nat)
    requires Ordered(ps) && n <= |ps|
    ensures Ordered(ps[..n])
  {
    forall i, j | 0 <= i < j < n ensures Below(ps[..n][i].name, ps[..n][j].name) {
      assert ps[..n][i] == ps[i] && ps[..n][j] == ps[j];
    }
  }

  /** Moving the first parameter of `ps` onto `acc` keeps `acc + ps` as it is, and ordered. */
  lemma OrderedShift(acc: seq<Param>, ps: seq<Param>)
    requires ps != [] && Ordered(acc + ps)
    ensures Ordered(acc + [ps[0]]) && Ordered((acc + [ps[0]]) + ps[1..])
    ensures (acc + [ps[0]]) + ps[1..] == acc + ps
  {
    assert (acc + [ps[0]]) + ps[1..] == acc + ps by {
      assert ps == [ps[0]] + ps[1..];
    }
    OrderedPrefix(acc + ps, |acc| + 1);
    assert (acc + ps)[..|acc| + 1] == acc + [ps[0]];
  }

  /** Parameters written one after the other: the first, then the rest. */
  lemma FormatParamsCons(ps: seq<Param>)
    requires ps != [] && FormatParams(ps).Success?
    ensures ParamText(ps[0]).Success? && FormatParams(ps[1..]).Success?
    ensures FormatParams(ps).value == ParamText(ps[0]).value + FormatParams(ps[1..]).value
  {
  }

  /** The parameters `ps`, one after the other from `p` to the end of `h`, as `MatchParam` reads them. */
  ghost predicate Reads(h: string, p: nat, ps: seq<Param>)
    requires p <= |h|
    decreases |ps|
  {
    if ps == [] then p == |h|
    else MatchParam(h, p).Some? && MatchParam(h, p).value.0 == ps[0] && Reads(h, MatchParam(h, p).value.1, ps[1..])
  }

  /** What `FormatParams` wrote reads back parameter by parameter. */
  lemma {:induction false} WrittenReads(h: string, p: nat, ps: seq<Param>)
    requires forall i :: 0 <= i < |ps| ==> WellFormedParam(ps[i])
    requires FormatParams(ps).Success? && p <= |h| && h[p..] == FormatParams(ps).value
    ensures Reads(h, p, ps)
    decreases |ps|
  {
    if ps == [] {
      assert p == |h|;
    } else {
      assert WellFormedParam(ps[0]);
      var tail := ps[1..];
      assert forall i :: 0 <= i < |tail| ==> tail[i] == ps[i + 1];
      FormatParamsCons(ps);
      FormatParamsStart(tail);
      var text, rest := ParamText(ps[0]).value, FormatParams(tail).value;
      var q := p + |text|;
      SliceSplit(h, p, text, rest, q);
      WrittenReads(h, q, tail);
      ReadsIn(h, p, ps, rest, q);
    }
  }

  /** A parameter `ParamText` wrote at `p`, followed by parameters that read back, reads back. */
  lemma ReadsIn(h: string, p: nat, ps: seq<Param>, rest: string, q: nat)
    requires ps != [] && WellFormedParam(ps[0])
    requires rest == [] || rest[0] == ';'
    requires p <= |h| && h[p..] == ParamText(ps[0]).value + rest && q == p + |ParamText(ps[0]).value|
    requires q <= |h| && Reads(h, q, ps[1..])
    ensures Reads(h, p, ps)
  {
    MatchParamIn(h, p, ps[0], rest, q);
  }

  /** Parameters read one after the other are stored in turn, each after the ones before. */
  lemma {:induction false} ParseReads(h: string, p: nat, ps: seq<Param>, acc: seq<Param>)
    requires p <= |h| && Reads(h, p, ps) && Ordered(acc + ps)
    ensures ParseParams(h, p, acc) == Success(acc + ps)
    decreases |ps|
  {
    if ps == [] {
      assert acc + ps == acc;
    } else {
      var q := MatchParam(h, p).value.1;
      OrderedShift(acc, ps);
      ParseReads(h, q, ps[1..], acc + [ps[0]]);
      InsertAtEnd(acc, ps[0]);
    }
  }

  /**
   * Reading back written parameters: the parameters `ps` that `FormatParams` wrote at `p`,
   * up to the end of the header, are parsed onto `acc` as `acc + ps`, when `acc + ps` is
   * ordered by name.
   */
  lemma ParseFormattedParams(h: string, p: nat, ps: seq<Param>, acc: seq<Param>)
    requires forall i :: 0 <= i < |ps| ==> WellFormedParam(ps[i])
    requires Ordered(acc + ps)
    requires FormatParams(ps).Success? && p <= |h| && h[p..] == FormatParams(ps).value
    ensures ParseParams(h, p, acc) == Success(acc + ps)
  {
    WrittenReads(h, p, ps);
    ParseReads(h, p, ps, acc);
  }

  /** A parameter list `ParamText` can write in full. */
  lemma FormatParamsOfWellFormed(ps: seq<Param>)
    requires forall i :: 0 <= i < |ps| ==> WellFormedParam(ps[i])
    ensures FormatParams(ps).Success?
  {
    forall i | 0 <= i < |ps| ensures ParamText(ps[i]).Success? {
      assert WellFormedParam(ps[i]);
    }
  }

  /** A parameter list that was written in full holds only values `QString` can write. */
  lemma WritableOfFormatParams(ps: seq<Param>)
    requires FormatParams(ps).Success?
    ensures forall i :: 0 <= i < |ps| ==> QString(ps[i].value).Success?
  {
    forall i | 0 <= i < |ps| ensures QString(ps[i].value).Success? {
      assert ParamText(ps[i]).Success?;
    }
  }

  /** The first `;` after a type name is the one that starts its parameters. */
  lemma FindAfterTypeName(t: string, f: string)
    requires IsTypeName(t) && (f == [] || f[0] == ';')
    ensures Find(t + f, ';') == |t|
  {
    TypeNameChars(t);
    var s := t + f;
    forall k | 0 <= k < |t| ensures s[k] != ';' {
      if TokenChar(t[k]) {
        TokenCharIsPlain(t[k]);
      }
    }
    assert f != [] ==> s[|t|] == ';';
  }

  /** A media type `Format` can write and `Parse` reads back unchanged. */
  ghost predicate WellFormed(t: ContentType) {
    && IsTypeName(t.typeName) && IsLower(t.typeName) && Ordered(t.params)
    && forall i :: 0 <= i < |t.params| ==> WellFormedParam(t.params[i])
  }

  /** Parsing what `Format` wrote gives back the media type. */
  lemma ParseFormat(t: ContentType)
    requires WellFormed(t)
    ensures Format(t).Success? && Parse(Format(t).value) == Success(t)
  {
    FormatParamsOfWellFormed(t.params);
    var f := FormatParams(t.params).value;
    var s := t.typeName + f;
    assert Format(t) == Success(s);
    FormatParamsStart(t.params);
    FindAfterTypeName(t.typeName, f);
    TypeNameChars(t.typeName);
    assert s[..|t.typeName|] == t.typeName;
    TrimTypeName(t.typeName);
    assert s[|t.typeName|..] == f;
    assert [] + t.params == t.params;
    ParseFormattedParams(s, |t.typeName|, t.params, []);
    LowerFixed(t.typeName);
  }

  /** A parsed parameter's name is a lower-case token. */
  lemma MatchParamName(h: string, p: nat)
    requires p <= |h| && MatchParam(h, p).Some?
    ensures IsToken(MatchParam(h, p).value.0.name) && IsLower(MatchParam(h, p).value.0.name)
  {
    ParamNameToken(h, p);
  }

  /** The name `ParamName` reads is a lower-case token. */
  lemma ParamNameToken(h: string, p: nat)
    requires p < |h| && ParamName(h, p).Some?
    ensures IsToken(ParamName(h, p).value.0) && IsLower(ParamName(h, p).value.0)
  {
    var p1 := p + 1;
    var n0 := SkipSpaces(h, p1);
    var n1 := TokenEnd(h, n0);
    var raw := h[n0..n1];
    forall i | 0 <= i < |raw| ensures TokenChar(raw[i]) {
      assert raw[i] == h[n0 + i];
    }
    ToLowerToken(raw);
    LowerFixed(raw);
  }

  /** Storing a parameter with a lower-case token name keeps every name a lower-case token. */
  lemma InsertLowerNames(ps: seq<Param>, param: Param)
    requires LowerNames(ps) && IsToken(param.name) && IsLower(param.name)
    ensures LowerNames(Insert(ps, param))
  {
    InsertMembers(ps, param);
    var r := Insert(ps, param);
    forall i | 0 <= i < |r| ensures IsToken(r[i].name) && IsLower(r[i].name) {
      assert r[i] in r;
      if r[i] != param {
        var k :| 0 <= k < |ps| && ps[k] == r[i];
      }
    }
  }

  /** Parsing keeps the parameter list sorted by name, every name a lower-case token. */
  lemma {:induction false} ParseParamsShape(h: string, p: nat, acc: seq<Param>)
    requires p <= |h| && Ordered(acc) && LowerNames(acc)
    ensures ParseParams(h, p, acc).Success? ==>
      Ordered(ParseParams(h, p, acc).value) && LowerNames(ParseParams(h, p, acc).value)
    decreases |h| - p
  {
    if p < |h| && MatchParam(h, p).Some? {
      var (param, q) := MatchParam(h, p).value;
      MatchParamName(h, p);
      InsertKeepsOrder(acc, param);
      InsertLowerNames(acc, param);
      ParseParamsShape(h, q, Insert(acc, param));
    }
  }

  /** A parsed media type has a lower-case type name and an ordered list of lower-case names. */
  lemma ParseShape(header: string)
    requires Parse(header).Success?
    ensures IsTypeName(Parse(header).value.typeName) && IsLower(Parse(header).value.typeName)
    ensures Ordered(Parse(header).value.params) && LowerNames(Parse(header).value.params)
  {
    var typeName := Trim(header[..Find(header, ';')]);
    ToLowerTypeName(typeName);
    LowerFixed(typeName);
    ParseParamsShape(header, Find(header, ';'), []);
  }

  /** `"charset"` is a lower-case token. */
  lemma CharsetName()
    ensures IsToken("charset") && IsLower("charset")
  {
    var n := "charset";
    assert n[0] == 'c' && n[1] == 'h' && n[2] == 'a' && n[3] == 'r' && n[4] == 's' && n[5] == 'e' && n[6] == 't';
  }

  /** The media type `SetCharset` writes, before it is written. */
  function WithCharset(t: ContentType, charset: string): ContentType {
    ContentType(t.typeName, Insert(t.params, Param("charset", charset)))
  }

  /** What `SetCharset` writes, when it succeeds, is a well-formed media type. */
  lemma WithCharsetWellFormed(mediaType: string, charset: string)
    requires mediaType != "" && charset != "" && SetCharset(mediaType, charset).Success?
    ensures Parse(mediaType).Success?
    ensures WellFormed(WithCharset(Parse(mediaType).value, charset))
    ensures SetCharset(mediaType, charset) == Format(WithCharset(Parse(mediaType).value, charset))
  {
    var t := Parse(mediaType).value;
    var t' := WithCharset(t, charset);
    ParseShape(mediaType);
    CharsetName();
    InsertKeepsOrder(t.params, Param("charset", charset));
    InsertLowerNames(t.params, Param("charset", charset));
    WritableOfFormatParams(t'.params);
  }

  /**
   * When `SetCharset` succeeds on a media type it writes one that parses back: same type,
   * `charset` holding the given value, every other parameter as it was.
   */
  lemma SetCharsetSpec(mediaType: string, charset: string, name: string)
    requires mediaType != "" && charset != "" && SetCharset(mediaType, charset).Success?
    ensures Parse(mediaType).Success?
    ensures Parse(SetCharset(mediaType, charset).value) == Success(WithCharset(Parse(mediaType).value, charset))
    ensures Parse(SetCharset(mediaType, charset).value).value.typeName == Parse(mediaType).value.typeName
    ensures Lookup(Parse(SetCharset(mediaType, charset).value).value.params, name) ==
      if name == "charset" then Some(charset) else Lookup(Parse(mediaType).value.params, name)
  {
    WithCharsetWellFormed(mediaType, charset);
    ParseFormat(WithCharset(Parse(mediaType).value, charset));
    InsertLookup(Parse(mediaType).value.params, Param("charset", charset), name);
  }

  /** Once the media type parses, the only way `SetCharset` throws is a value it cannot write. */
  lemma SetCharsetFailure(mediaType: string, charset: string)
    requires mediaType != "" && charset != "" && Parse(mediaType).Success?
    ensures SetCharset(mediaType, charset).Failure? ==> SetCharset(mediaType, charset).error == InvalidParameterValue
  {
    assert SetCharset(mediaType, charset) == Format(WithCharset(Parse(mediaType).value, charset));
  }

  /** Setting the charset a second time changes nothing. */
  lemma SetCharsetIdempotent(mediaType: string, charset: string)
    requires SetCharset(mediaType, charset).Success?
    ensures SetCharset(SetCharset(mediaType, charset).value, charset) == SetCharset(mediaType, charset)
  {
    if mediaType != "" && charset != "" {
      WithCharsetWellFormed(mediaType, charset);
      var t' := WithCharset(Parse(mediaType).value, charset);
      ParseFormat(t');
      InsertLookup(Parse(mediaType).value.params, Param("charset", charset), "charset");
      var written := SetCharset(mediaType, charset).value;
      assert written != "" by {
        assert |Format(t').value| >= |t'.typeName|;
        TypeNameChars(t'.typeName);
      }
      InsertPresent(t'.params, Param("charset", charset));
      assert WithCharset(t', charset) == t';
    }
  }

  /** A bare `type/subtype` parses to its lower-cased self with no parameters. */
  lemma ParseBareType(mediaType: string)
    requires IsTypeName(mediaType)
    ensures Parse(mediaType) == Success(ContentType(ToLower(mediaType), []))
  {
    FindAfterTypeName(mediaType, []);
    assert mediaType + [] == mediaType;
    assert mediaType[..|mediaType|] == mediaType;
    TrimTypeName(mediaType);
    TypeNameChars(mediaType);
  }

  /** A media type whose one parameter is a token-valued `charset`, written out. */
  lemma FormatCharsetOnly(typeName: string, charset: string)
    requires IsToken(charset)
    ensures Format(ContentType(typeName, [Param("charset", charset)])) == Success(typeName + "; charset=" + charset)
  {
    var ps := [Param("charset", charset)];
    assert QString(charset) == Success(charset);
    assert "; " + "charset" + "=" + charset == "; charset=" + charset;
    assert ParamText(ps[0]) == Success("; charset=" + charset);
    assert FormatParams(ps[1..]) == Success("");
    assert FormatParams(ps) == Success("; charset=" + charset + "");
    assert "; charset=" + charset + "" == "; charset=" + charset;
    assert typeName + ("; charset=" + charset) == typeName + "; charset=" + charset;
  }

  /** A bare `type/subtype` gets the lower-cased type and the one parameter `charset`. */
  lemma BareTypeGetsCharset(mediaType: string, charset: string)
    requires IsTypeName(mediaType) && IsToken(charset)
    ensures SetCharset(mediaType, charset) == Success(ToLower(mediaType) + "; charset=" + charset)
  {
    ParseBareType(mediaType);
    TypeNameChars(mediaType);
    assert Insert([], Param("charset", charset)) == [Param("charset", charset)];
    FormatCharsetOnly(ToLower(mediaType), charset);
  }
}
