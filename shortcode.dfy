/** Turning a post URL into its shortcode (app.js, lines 64-84). */
module Shortcode {
  import opened Wrappers
  import opened Text
  import opened Js

  /** The path segments that introduce a shortcode. */
  const PostTags: seq<string> := ["p", "reel", "tv", "reels"]

  const NotFoundMessage: string := "Invalid Instagram URL (shortcode not found)"

  predicate IsPostTag(segment: string) {
    segment in PostTags
  }

  /** The URL cut at every slash. */
  function Segments(url: string): seq<string> {
    Split(url, '/')
  }

  /** Position `i` holds the first post tag. */
  ghost predicate FirstTagAt(segments: seq<string>, i: int) {
    0 <= i < |segments| && IsPostTag(segments[i]) &&
    forall j :: 0 <= j < i ==> !IsPostTag(segments[j])
  }

  /** The index of the first post-tag segment, or -1. */
  function FindTag(segments: seq<string>): (i: int)
    ensures -1 <= i < |segments|
    ensures i == -1 <==> forall j :: 0 <= j < |segments| ==> !IsPostTag(segments[j])
    ensures i >= 0 ==> FirstTagAt(segments, i)
  {
    if segments == [] then -1
    else if IsPostTag(segments[0]) then 0
    else
      var k := FindTag(segments[1..]);
      if k == -1 then -1 else k + 1
  }

  /**
   * The shortcode is the segment right after the first post tag; a missing or empty one
   * throws. Nothing strips a query string or checks the characters.
   */
  function ExtractShortcode(url: string): (r: Result<string, Exception>)
    ensures r.Success? <==>
      exists i :: FirstTagAt(Segments(url), i) && i + 1 < |Segments(url)| && Segments(url)[i + 1] != ""
    ensures forall i :: FirstTagAt(Segments(url), i) && i + 1 < |Segments(url)| && r.Success? ==>
      r.value == Segments(url)[i + 1]
    ensures r.Success? ==> r.value != "" && '/' !in r.value
    ensures r.Failure? ==> r.error == Thrown("Error", NotFoundMessage)
  {
    var segments := Segments(url);
    var i := FindTag(segments);
    if 0 <= i && i + 1 < |segments| && segments[i + 1] != "" then Success(segments[i + 1])
    else Failure(Thrown("Error", NotFoundMessage))
  }

  /**
   * A URL whose segments have their first post tag at `n`, followed by a non-empty
   * segment, yields exactly that segment, whatever comes after it.
   */
  lemma ExtractFromSegments(parts: seq<string>, n: nat)
    requires forall k :: 0 <= k < |parts| ==> '/' !in parts[k]
    requires FirstTagAt(parts, n) && n + 1 < |parts| && parts[n + 1] != ""
    ensures ExtractShortcode(Join(parts, '/')) == Success(parts[n + 1])
  {
    SplitJoin(parts, '/');
    assert Segments(Join(parts, '/')) == parts;
  }

  /** The query string is not stripped: `https://<host>/p/ABC?x=1` gives `ABC?x=1`. */
  lemma QueryKeptInShortcode(host: string)
    requires '/' !in host && !IsPostTag(host)
    ensures ExtractShortcode("https://" + host + "/p/ABC?x=1") == Success("ABC?x=1")
  {
    var parts := ["https:", "", host, "p", "ABC?x=1"];
    assert Join(parts[4..], '/') == "ABC?x=1";
    assert Join(parts[3..], '/') == "p/ABC?x=1";
    assert Join(parts[2..], '/') == host + "/p/ABC?x=1";
    assert Join(parts[1..], '/') == "/" + host + "/p/ABC?x=1";
    assert Join(parts, '/') == "https://" + host + "/p/ABC?x=1";
    assert FirstTagAt(parts, 3);
    ExtractFromSegments(parts, 3);
  }

  /** A trailing slash ends the shortcode: `https://<host>/p/ABC/?x=1` gives `ABC`. */
  lemma TrailingSlashEndsShortcode(host: string)
    requires '/' !in host && !IsPostTag(host)
    ensures ExtractShortcode("https://" + host + "/p/ABC/?x=1") == Success("ABC")
  {
    var parts := ["https:", "", host, "p", "ABC", "?x=1"];
    assert Join(parts[5..], '/') == "?x=1";
    assert Join(parts[4..], '/') == "ABC/?x=1";
    assert Join(parts[3..], '/') == "p/ABC/?x=1";
    assert Join(parts[2..], '/') == host + "/p/ABC/?x=1";
    assert Join(parts[1..], '/') == "/" + host + "/p/ABC/?x=1";
    assert Join(parts, '/') == "https://" + host + "/p/ABC/?x=1";
    assert FirstTagAt(parts, 3);
    ExtractFromSegments(parts, 3);
  }

  /**
   * Share links (`/share/`) are replaced by the final URL the redirect probe reported, when
   * it reported one; a failed probe leaves the URL as it was.
   */
  function FollowShareLink(url: string, probe: Option<string>): (r: string)
    ensures !Contains(url, "/share/") ==> r == url
    ensures probe.None? ==> r == url
    ensures r != url ==> Contains(url, "/share/") && probe == Some(r) && r != ""
    ensures Contains(url, "/share/") && probe.Some? && probe.value != "" ==> r == probe.value
  {
    if Contains(url, "/share/") && probe.Some? && probe.value != "" then probe.value else url
  }
}
