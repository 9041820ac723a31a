/**
 * Building the public result from the selected post object (app.js, lines 136-202):
 * media entries, the sidecar walk with its two parallel lists, de-duplicated comments and
 * the defaulted `post_info`.
 */
module PostAssembly {
  import opened Wrappers
  import opened Text
  import opened Js

  datatype MediaKind = Image | Video

  /** One entry of `media_details`; `thumbnail` and `video_view_count` exist on videos only. */
  datatype MediaItem = MediaItem(
    kind: MediaKind,
    url: Value,
    dimensions: Value,
    thumbnail: Option<Value>,
    viewCount: Option<Value>)

  /** The media formatter: reading the video flag throws when `media` is null or undefined. */
  function FormatMedia(media: Value): (r: Result<MediaItem, Exception>)
    ensures r.Failure? <==> Nullish(media)
    ensures r.Failure? ==> r.error == ReadError(media, "is_video")
    ensures !Nullish(media) ==>
      var m, video := r.value, Get(media, "video_view_count");
      && (m.kind == Video <==> Truthy(Get(media, "is_video")))
      && (m.kind == Video ==>
            && m.url == Get(media, "video_url")
            && m.thumbnail == Some(Get(media, "display_url"))
            && m.viewCount.Some?
            && (Truthy(video) ==> m.viewCount.value == video)
            && (!Truthy(video) ==> m.viewCount.value == Num(0)))
      && (m.kind == Image ==> m.url == Get(media, "display_url") && m.thumbnail.None? && m.viewCount.None?)
      && Truthy(m.dimensions)
      && (Truthy(Get(media, "dimensions")) ==> m.dimensions == Get(media, "dimensions"))
      && (!Truthy(Get(media, "dimensions")) ==> m.dimensions == Obj(map[]))
  {
    if Nullish(media) then Failure(ReadError(media, "is_video"))
    else
      var isVideo := Truthy(Get(media, "is_video"));
      Success(MediaItem(
        if isVideo then Video else Image,
        if isVideo then Get(media, "video_url") else Get(media, "display_url"),
        Or(Get(media, "dimensions"), Obj(map[])),
        if isVideo then Some(Get(media, "display_url")) else None,
        if isVideo then Some(Or(Get(media, "video_view_count"), Num(0))) else None))
  }

  /** A post is a carousel when its type name says so or it has truthy child edges. */
  predicate IsSidecar(post: Value)
    requires !Nullish(post)
  {
    Get(post, "__typename") == Str("XDTGraphSidecar") || Truthy(Get(post, "edge_sidecar_to_children"))
  }

  /** The carousel's child edges, or an empty array when they are missing or falsy. */
  function SidecarEdges(post: Value): Value
    requires !Nullish(post)
  {
    Or(OptGet(Get(post, "edge_sidecar_to_children"), "edges"), Arr([]))
  }

  /** The per-edge callback: take `node` out of the edge (throwing on a null edge), then format it. */
  function FormatEdge(edge: Value): Result<MediaItem, Exception> {
    if Nullish(edge) then Failure(DestructureError(edge, "node")) else FormatMedia(Get(edge, "node"))
  }

  /** The media entries of the child edges, in payload order; the first failing edge throws. */
  function FormatEdges(edges: seq<Value>): (r: Result<seq<MediaItem>, Exception>)
    ensures r.Success? <==> forall i :: 0 <= i < |edges| ==> FormatEdge(edges[i]).Success?
    ensures r.Success? ==>
      |r.value| == |edges| && forall i :: 0 <= i < |edges| ==> FormatEdge(edges[i]) == Success(r.value[i])
    ensures r.Failure? ==> exists i ::
      && 0 <= i < |edges|
      && FormatEdge(edges[i]) == Failure(r.error)
      && forall j :: 0 <= j < i ==> FormatEdge(edges[j]).Success?
  {
    if edges == [] then Success([])
    else
      match FormatEdge(edges[0])
      case Failure(e) => Failure(e)
      case Success(m) =>
        match FormatEdges(edges[1..])
        case Failure(e) =>
          assert forall i :: 0 <= i < |edges[1..]| ==> edges[1..][i] == edges[i + 1];
          Failure(e)
        case Success(ms) => Success([m] + ms)
  }

  /**
   * The media entries of a post: one per child edge of a sidecar, or the post itself as
   * the single entry.
   */
  function MediaOf(post: Value): (r: Result<seq<MediaItem>, Exception>)
    requires !Nullish(post)
    ensures !IsSidecar(post) ==> r.Success? && |r.value| == 1 && FormatMedia(post) == Success(r.value[0])
    ensures IsSidecar(post) && !Truthy(OptGet(Get(post, "edge_sidecar_to_children"), "edges")) ==> r == Success([])
    ensures IsSidecar(post) && r.Success? ==>
      SidecarEdges(post).Arr? && |r.value| == |SidecarEdges(post).items| &&
      forall i :: 0 <= i < |r.value| ==> FormatEdge(SidecarEdges(post).items[i]) == Success(r.value[i])
    ensures IsSidecar(post) && !SidecarEdges(post).Arr? ==> r == Failure(NotAFunction("edges.forEach"))
    ensures IsSidecar(post) && SidecarEdges(post).Arr? ==> r == FormatEdges(SidecarEdges(post).items)
  {
    if IsSidecar(post) then
      var edges := SidecarEdges(post);
      if edges.Arr? then FormatEdges(edges.items) else Failure(NotAFunction("edges.forEach"))
    else
      Success([FormatMedia(post).value])
  }

  /** `node.is_video ? node.video_url : node.display_url`. */
  function ShownUrl(node: Value): Value
    requires !Nullish(node)
  {
    if Truthy(Get(node, "is_video")) then Get(node, "video_url") else Get(node, "display_url")
  }

  /**
   * The sidecar walk as the source runs it: `mediaDetails` and `urlList` grown by `push`
   * side by side. On success the two lists are aligned entry by entry.
   */
  method CollectMedia(post: Value) returns (r: Result<(seq<MediaItem>, seq<Value>), Exception>)
    requires !Nullish(post)
    ensures r.Success? <==> MediaOf(post).Success?
    ensures r.Success? ==> r.value.0 == MediaOf(post).value
    ensures r.Success? ==>
      && |r.value.1| == |r.value.0|
      && forall i :: 0 <= i < |r.value.0| ==> r.value.1[i] == r.value.0[i].url
    ensures r.Failure? ==> r.error == MediaOf(post).error
  {
    var mediaDetails: seq<MediaItem> := [];
    var urlList: seq<Value> := [];
    if IsSidecar(post) {
      var edges := SidecarEdges(post);
      if !edges.Arr? {
        return Failure(NotAFunction("edges.forEach"));
      }
      var items := edges.items;
      var i := 0;
      while i < |items|
        invariant 0 <= i <= |items|
        invariant |mediaDetails| == i && |urlList| == i
        invariant forall k :: 0 <= k < i ==> FormatEdge(items[k]) == Success(mediaDetails[k])
        invariant forall k :: 0 <= k < i ==> urlList[k] == mediaDetails[k].url
      {
        var edge := items[i];
        if Nullish(edge) {
          return Failure(DestructureError(edge, "node"));
        }
        var node := Get(edge, "node");
        var m := FormatMedia(node);
        if m.Failure? {
          return Failure(m.error);
        }
        mediaDetails := mediaDetails + [m.value];
        urlList := urlList + [ShownUrl(node)];
        i := i + 1;
      }
      assert FormatEdges(items).Success?;
      assert FormatEdges(items).value == mediaDetails;
    } else {
      var m := FormatMedia(post);
      mediaDetails := mediaDetails + [m.value];
      urlList := urlList + [ShownUrl(post)];
    }
    return Success((mediaDetails, urlList));
  }

  /** The largest distance from the epoch, in milliseconds, a `Date` can hold. */
  const MaxTimeMillis: int := 8_640_000_000_000_000

  /** What `toISOString` throws on an invalid date. */
  const InvalidTime: Exception := Thrown("RangeError", "Invalid time value")

  /** `Number(v)` for integral results, `None` standing for `NaN`. */
  function TimeValue(v: Value): Option<int> {
    match v
    case Undefined => None
    case Null => Some(0)
    case Bool(b) => Some(if b then 1 else 0)
    case Num(n) => Some(n)
    case Str(s) => if s == "" then Some(0) else if AllDigits(s) then Some(DigitsValue(s)) else None
    case Arr(items) => if items == [] then Some(0) else None
    case Obj(_) => None
  }

  /** An instant as milliseconds from the epoch; its ISO-8601 rendering is not modelled. */
  datatype Instant = IsoInstant(millis: int)

  /** Rendering seconds since the epoch as an ISO date: throws unless the time is a number in range. */
  function ToIso(seconds: Value): (r: Result<Instant, Exception>)
    ensures r.Failure? <==>
      || TimeValue(seconds).None?
      || TimeValue(seconds).value * 1000 > MaxTimeMillis
      || TimeValue(seconds).value * 1000 < -MaxTimeMillis
    ensures r.Success? ==> r.value.millis == TimeValue(seconds).value * 1000
    ensures r.Failure? ==> r.error == InvalidTime
  {
    match TimeValue(seconds)
    case None => Failure(InvalidTime)
    case Some(t) =>
      if -MaxTimeMillis <= t * 1000 <= MaxTimeMillis then Success(IsoInstant(t * 1000)) else Failure(InvalidTime)
  }

  /** A missing timestamp is an invalid date; a null one is the epoch. */
  lemma MissingTimeThrows()
    ensures ToIso(Undefined) == Failure(InvalidTime)
    ensures ToIso(Null) == Success(IsoInstant(0))
  {
  }

  /** One entry of `comments`. */
  datatype Comment = Comment(id: Value, username: Value, text: Value, createdAt: Instant)

  /** The nodes of the comment edges, in order; the first null or undefined edge throws. */
  function NodesOf(edges: seq<Value>): (r: Result<seq<Value>, Exception>)
    ensures r.Success? <==> forall i :: 0 <= i < |edges| ==> !Nullish(edges[i])
    ensures r.Success? ==>
      && |r.value| == |edges|
      && forall i :: 0 <= i < |edges| ==> r.value[i] == OptGet(edges[i], "node")
    ensures r.Failure? ==> exists i ::
      && 0 <= i < |edges|
      && Nullish(edges[i])
      && r.error == ReadError(edges[i], "node")
      && forall j :: 0 <= j < i ==> !Nullish(edges[j])
  {
    if edges == [] then Success([])
    else if Nullish(edges[0]) then Failure(ReadError(edges[0], "node"))
    else
      match NodesOf(edges[1..])
      case Failure(e) =>
        assert forall i :: 0 <= i < |edges[1..]| ==> edges[1..][i] == edges[i + 1];
        Failure(e)
      case Success(ns) => Success([Get(edges[0], "node")] + ns)
  }

  /** `n.id` of a node that is neither null nor undefined. */
  function IdOf(node: Value): Value {
    OptGet(node, "id")
  }

  /** Position of the first null or undefined node, or the length when there is none. */
  function FirstNullish(nodes: seq<Value>): (k: nat)
    ensures k <= |nodes|
    ensures forall j :: 0 <= j < k ==> !Nullish(nodes[j])
    ensures k < |nodes| ==> Nullish(nodes[k])
  {
    if nodes == [] then 0
    else if Nullish(nodes[0]) then 0
    else 1 + FirstNullish(nodes[1..])
  }

  /** The nodes the `seen`-set filter lets through, given the ids already seen. */
  function KeepFirst(nodes: seq<Value>, seen: set<Value>): seq<Value>
    decreases |nodes|
  {
    if nodes == [] then []
    else if IdOf(nodes[0]) in seen then KeepFirst(nodes[1..], seen)
    else [nodes[0]] + KeepFirst(nodes[1..], seen + {IdOf(nodes[0])})
  }

  /** The `filter` stage of `formatComments`: reading `n.id` of a null node throws. */
  function DedupNodes(nodes: seq<Value>): Result<seq<Value>, Exception> {
    var k := FirstNullish(nodes);
    if k < |nodes| then Failure(ReadError(nodes[k], "id")) else Success(KeepFirst(nodes, {}))
  }

  /** One step of the filter: the node at `i` is kept exactly when its id is unseen. */
  lemma KeepFirstStep(nodes: seq<Value>, seen: set<Value>, i: int)
    requires 0 <= i < |nodes|
    ensures KeepFirst(nodes[i..], seen) ==
      if IdOf(nodes[i]) in seen then KeepFirst(nodes[i + 1..], seen)
      else [nodes[i]] + KeepFirst(nodes[i + 1..], seen + {IdOf(nodes[i])})
  {
    assert nodes[i..][0] == nodes[i] && nodes[i..][1..] == nodes[i + 1..];
  }

  /** `FirstNullish` finds position `i` when the nodes before it are not null. */
  lemma FirstNullishAt(nodes: seq<Value>, i: int)
    requires 0 <= i <= |nodes|
    requires forall j :: 0 <= j < i ==> !Nullish(nodes[j])
    requires i < |nodes| ==> Nullish(nodes[i])
    ensures FirstNullish(nodes) == i
  {
  }

  /** The `filter` stage as the source runs it, with a mutable `seen` set. */
  method FilterFirstById(nodes: seq<Value>) returns (r: Result<seq<Value>, Exception>)
    ensures r == DedupNodes(nodes)
  {
    var seen: set<Value> := {};
    var kept: seq<Value> := [];
    var i := 0;
    while i < |nodes|
      invariant 0 <= i <= |nodes|
      invariant forall j :: 0 <= j < i ==> !Nullish(nodes[j])
      invariant kept + KeepFirst(nodes[i..], seen) == KeepFirst(nodes, {})
    {
      var n := nodes[i];
      if Nullish(n) {
        FirstNullishAt(nodes, i);
        return Failure(ReadError(n, "id"));
      }
      KeepFirstStep(nodes, seen, i);
      if IdOf(n) !in seen {
        assert kept + [n] + KeepFirst(nodes[i + 1..], seen + {IdOf(n)}) ==
          kept + ([n] + KeepFirst(nodes[i + 1..], seen + {IdOf(n)}));
        seen := seen + {IdOf(n)};
        kept := kept + [n];
      }
      i := i + 1;
    }
    assert nodes[i..] == [];
    assert kept + KeepFirst([], seen) == kept;
    FirstNullishAt(nodes, i);
    return Success(kept);
  }

  /** The last `map` of `formatComments`; the username defaults to `'unknown'`. */
  function ToComment(node: Value): (r: Result<Comment, Exception>)
    ensures r.Success? <==> ToIso(OptGet(node, "created_at")).Success?
    ensures r.Failure? ==> r.error == InvalidTime
    ensures r.Success? ==>
      && r.value.id == IdOf(node)
      && Truthy(r.value.username)
      && (Truthy(OptGet(OptGet(node, "owner"), "username")) ==> r.value.username == OptGet(OptGet(node, "owner"), "username"))
      && (!Truthy(OptGet(OptGet(node, "owner"), "username")) ==> r.value.username == Str("unknown"))
      && r.value.text == OptGet(node, "text")
      && r.value.createdAt.millis == TimeValue(OptGet(node, "created_at")).value * 1000
  {
    match ToIso(OptGet(node, "created_at"))
    case Failure(e) => Failure(e)
    case Success(t) =>
      Success(Comment(IdOf(node), Or(OptGet(OptGet(node, "owner"), "username"), Str("unknown")), OptGet(node, "text"), t))
  }

  /** The comments of the kept nodes, in order; the first invalid date throws. */
  function ToComments(nodes: seq<Value>): (r: Result<seq<Comment>, Exception>)
    ensures r.Success? <==> forall i :: 0 <= i < |nodes| ==> ToComment(nodes[i]).Success?
    ensures r.Success? ==>
      && |r.value| == |nodes|
      && forall i :: 0 <= i < |nodes| ==> ToComment(nodes[i]) == Success(r.value[i])
    ensures r.Failure? ==> r.error == InvalidTime
  {
    if nodes == [] then Success([])
    else
      match ToComment(nodes[0])
      case Failure(e) => Failure(e)
      case Success(c) =>
        match ToComments(nodes[1..])
        case Failure(e) =>
          assert forall i :: 0 <= i < |nodes[1..]| ==> nodes[1..][i] == nodes[i + 1];
          Failure(e)
        case Success(cs) => Success([c] + cs)
  }

  /** The comment formatter; its default of an empty list applies to `undefined` only. */
  function FormatComments(edges: Value): Result<seq<Comment>, Exception> {
    var list := if edges.Undefined? then Arr([]) else edges;
    if list.Null? then Failure(ReadError(list, "map"))
    else if !list.Arr? then Failure(NotAFunction("edges.map"))
    else
      match NodesOf(list.items)
      case Failure(e) => Failure(e)
      case Success(nodes) =>
        match DedupNodes(nodes)
        case Failure(e) => Failure(e)
        case Success(kept) => ToComments(kept)
  }

  /** `formatComments` as the source runs it, with the imperative filter. */
  method BuildComments(edges: Value) returns (r: Result<seq<Comment>, Exception>)
    ensures r == FormatComments(edges)
  {
    var list := if edges.Undefined? then Arr([]) else edges;
    if list.Null? {
      return Failure(ReadError(list, "map"));
    }
    if !list.Arr? {
      return Failure(NotAFunction("edges.map"));
    }
    var nodes := NodesOf(list.items);
    if nodes.Failure? {
      return Failure(nodes.error);
    }
    var kept := FilterFirstById(nodes.value);
    if kept.Failure? {
      return Failure(kept.error);
    }
    return ToComments(kept.value);
  }

  /** `a` is `b` with some entries dropped, order kept. */
  ghost predicate Subsequence(a: seq<Value>, b: seq<Value>)
    decreases |b|
  {
    if a == [] then true
    else if b == [] then false
    else (a[0] == b[0] && Subsequence(a[1..], b[1..])) || Subsequence(a, b[1..])
  }

  lemma {:induction false} SubsequenceLength(a: seq<Value>, b: seq<Value>)
    requires Subsequence(a, b)
    ensures |a| <= |b|
    decreases |b|
  {
    if a != [] {
      if a[0] == b[0] && Subsequence(a[1..], b[1..]) {
        SubsequenceLength(a[1..], b[1..]);
      } else {
        SubsequenceLength(a, b[1..]);
      }
    }
  }

  /** Position `i` holds the first node carrying its id. */
  ghost predicate FirstOfItsId(nodes: seq<Value>, i: int) {
    0 <= i < |nodes| && forall j :: 0 <= j < i ==> IdOf(nodes[j]) != IdOf(nodes[i])
  }

  lemma {:induction false} KeepFirstIsSubsequence(nodes: seq<Value>, seen: set<Value>)
    ensures Subsequence(KeepFirst(nodes, seen), nodes)
    decreases |nodes|
  {
    if nodes != [] {
      var id := IdOf(nodes[0]);
      var r := KeepFirst(nodes, seen);
      if id in seen {
        KeepFirstIsSubsequence(nodes[1..], seen);
      } else {
        KeepFirstIsSubsequence(nodes[1..], seen + {id});
        assert r[1..] == KeepFirst(nodes[1..], seen + {id});
      }
    }
  }

  /** No two nodes of `nodes` share an id. */
  ghost predicate DistinctIds(nodes: seq<Value>) {
    forall i, j :: 0 <= i < j < |nodes| ==> IdOf(nodes[i]) != IdOf(nodes[j])
  }

  /** No node of `nodes` has an id in `seen`. */
  ghost predicate IdsOutside(nodes: seq<Value>, seen: set<Value>) {
    forall i :: 0 <= i < |nodes| ==> IdOf(nodes[i]) !in seen
  }

  lemma {:induction false} KeepFirstUnique(nodes: seq<Value>, seen: set<Value>)
    ensures IdsOutside(KeepFirst(nodes, seen), seen)
    ensures DistinctIds(KeepFirst(nodes, seen))
    decreases |nodes|
  {
    if nodes != [] {
      var id := IdOf(nodes[0]);
      if id in seen {
        KeepFirstUnique(nodes[1..], seen);
      } else {
        var rest := KeepFirst(nodes[1..], seen + {id});
        KeepFirstUnique(nodes[1..], seen + {id});
        var r := KeepFirst(nodes, seen);
        assert r == [nodes[0]] + rest;
        forall i | 1 <= i < |r| ensures IdOf(r[i]) !in seen + {id} {
          assert r[i] == rest[i - 1];
        }
      }
    }
  }

  lemma {:induction false} KeepFirstKeepsFirst(nodes: seq<Value>, seen: set<Value>, i: int)
    requires FirstOfItsId(nodes, i) && IdOf(nodes[i]) !in seen
    ensures nodes[i] in KeepFirst(nodes, seen)
    decreases |nodes|
  {
    if i > 0 {
      var id := IdOf(nodes[0]);
      assert forall j :: 0 <= j < i - 1 ==> nodes[1..][j] == nodes[j + 1];
      assert FirstOfItsId(nodes[1..], i - 1);
      if id in seen {
        KeepFirstKeepsFirst(nodes[1..], seen, i - 1);
      } else {
        KeepFirstKeepsFirst(nodes[1..], seen + {id}, i - 1);
      }
    }
  }

  /**
   * The filter keeps exactly the first node of every id, in input order: the result is a
   * subsequence of the input with pairwise distinct ids that holds every first occurrence.
   */
  lemma DedupKeepsFirstOccurrences(nodes: seq<Value>)
    ensures var r := KeepFirst(nodes, {});
      && Subsequence(r, nodes)
      && |r| <= |nodes|
      && DistinctIds(r)
      && (forall i :: FirstOfItsId(nodes, i) ==> nodes[i] in r)
  {
    KeepFirstIsSubsequence(nodes, {});
    SubsequenceLength(KeepFirst(nodes, {}), nodes);
    KeepFirstUnique(nodes, {});
    forall i | FirstOfItsId(nodes, i) ensures nodes[i] in KeepFirst(nodes, {}) {
      KeepFirstKeepsFirst(nodes, {}, i);
    }
  }

  /** The nodes `formatComments` turns into comments: the first of each id, in order. */
  function KeptNodes(nodes: seq<Value>): seq<Value> {
    KeepFirst(nodes, {})
  }

  /**
   * `formatComments`: absent edges give no comments. Otherwise the comments are those of
   * the kept nodes, one each and in the same order, where the kept nodes are an
   * order-preserving subsequence of the edges' nodes. So there are at most as many comments
   * as edges, ids are pairwise distinct, every username is truthy, and the first edge of
   * every id has its comment.
   */
  lemma FormatCommentsSpec(edges: Value)
    ensures edges.Undefined? ==> FormatComments(edges) == Success([])
    ensures var r := FormatComments(edges); r.Success? ==>
      && (edges.Arr? || edges.Undefined?)
      && |r.value| <= (if edges.Arr? then |edges.items| else 0)
      && (forall i, j :: 0 <= i < j < |r.value| ==> r.value[i].id != r.value[j].id)
      && (forall i :: 0 <= i < |r.value| ==> Truthy(r.value[i].username))
      && (edges.Arr? ==>
            && Subsequence(KeptNodes(NodesOf(edges.items).value), NodesOf(edges.items).value)
            && |r.value| == |KeptNodes(NodesOf(edges.items).value)|
            && forall k :: 0 <= k < |r.value| ==>
                 ToComment(KeptNodes(NodesOf(edges.items).value)[k]) == Success(r.value[k]))
      && (edges.Arr? ==> forall i :: 0 <= i < |edges.items| && FirstOfItsId(NodesOf(edges.items).value, i) ==>
            exists k :: 0 <= k < |r.value| && ToComment(NodesOf(edges.items).value[i]) == Success(r.value[k]))
  {
    var r := FormatComments(edges);
    if r.Success? && edges.Arr? {
      var nodes := NodesOf(edges.items).value;
      DedupKeepsFirstOccurrences(nodes);
      var kept := KeepFirst(nodes, {});
      assert r == ToComments(kept);
      forall i, j | 0 <= i < j < |r.value| ensures r.value[i].id != r.value[j].id {
        assert r.value[i].id == IdOf(kept[i]) && r.value[j].id == IdOf(kept[j]);
      }
      forall i | 0 <= i < |edges.items| && FirstOfItsId(nodes, i)
        ensures exists k :: 0 <= k < |r.value| && ToComment(nodes[i]) == Success(r.value[k])
      {
        var k :| 0 <= k < |kept| && kept[k] == nodes[i];
        assert ToComment(nodes[i]) == Success(r.value[k]);
      }
    }
  }

  /**
   * One kept comment without a valid `created_at` makes `formatComments` throw, so the
   * whole post fails to resolve.
   */
  lemma UndatedCommentThrows(edges: seq<Value>, i: int)
    requires NodesOf(edges).Success? && DedupNodes(NodesOf(edges).value).Success?
    requires FirstOfItsId(NodesOf(edges).value, i)
    requires ToIso(OptGet(NodesOf(edges).value[i], "created_at")).Failure?
    ensures FormatComments(Arr(edges)) == Failure(InvalidTime)
  {
    var nodes := NodesOf(edges).value;
    DedupKeepsFirstOccurrences(nodes);
    var kept := KeepFirst(nodes, {});
    var k :| 0 <= k < |kept| && kept[k] == nodes[i];
    assert ToComment(kept[k]).Failure?;
  }

  /** `post_info`. */
  datatype PostInfo = PostInfo(
    ownerUsername: Value,
    ownerFullname: Value,
    isVerified: bool,
    isPrivate: bool,
    likes: Value,
    isAd: bool,
    caption: Value,
    commentsCount: nat,
    takenAt: Option<Instant>)     // None is the JSON `null`

  /** `post.edge_media_preview_like?.count`. */
  function LikeCount(post: Value): Value
    requires !Nullish(post)
  {
    OptGet(Get(post, "edge_media_preview_like"), "count")
  }

  /** `post.edge_media_to_caption?.edges?.[0]?.node?.text`: the text of the first caption. */
  function CaptionText(post: Value): Value
    requires !Nullish(post)
  {
    OptGet(OptGet(OptFirst(OptGet(Get(post, "edge_media_to_caption"), "edges")), "node"), "text")
  }

  /**
   * `post_info` of a post with `commentsCount` comments: every missing or falsy field has
   * its default (`''`, `0` or `false`); only a truthy `taken_at` that is no valid date throws.
   */
  function InfoOf(post: Value, commentsCount: nat): (r: Result<PostInfo, Exception>)
    requires !Nullish(post)
    ensures r.Failure? <==> Truthy(Get(post, "taken_at")) && ToIso(Get(post, "taken_at")).Failure?
    ensures r.Failure? ==> r.error == InvalidTime
    ensures r.Success? ==>
      var info, owner := r.value, Get(post, "owner");
      && (Truthy(OptGet(owner, "username")) ==> info.ownerUsername == OptGet(owner, "username"))
      && (!Truthy(OptGet(owner, "username")) ==> info.ownerUsername == Str(""))
      && (Truthy(OptGet(owner, "full_name")) ==> info.ownerFullname == OptGet(owner, "full_name"))
      && (!Truthy(OptGet(owner, "full_name")) ==> info.ownerFullname == Str(""))
      && (info.isVerified <==> Truthy(OptGet(owner, "is_verified")))
      && (info.isPrivate <==> Truthy(OptGet(owner, "is_private")))
      && (Truthy(LikeCount(post)) ==> info.likes == LikeCount(post))
      && (!Truthy(LikeCount(post)) ==> info.likes == Num(0))
      && (info.isAd <==> Truthy(Get(post, "is_ad")))
      && (Truthy(CaptionText(post)) ==> info.caption == CaptionText(post))
      && (!Truthy(CaptionText(post)) ==> info.caption == Str(""))
      && info.commentsCount == commentsCount
      && (info.takenAt.Some? <==> Truthy(Get(post, "taken_at")))
      && (info.takenAt.Some? ==> info.takenAt.value.millis == TimeValue(Get(post, "taken_at")).value * 1000)
  {
    var owner := Get(post, "owner");
    var takenAt := Get(post, "taken_at");
    if Truthy(takenAt) && ToIso(takenAt).Failure? then Failure(InvalidTime)
    else
      Success(PostInfo(
        Or(OptGet(owner, "username"), Str("")),
        Or(OptGet(owner, "full_name"), Str("")),
        Truthy(OptGet(owner, "is_verified")),
        Truthy(OptGet(owner, "is_private")),
        Or(LikeCount(post), Num(0)),
        Truthy(Get(post, "is_ad")),
        Or(CaptionText(post), Str("")),
        commentsCount,
        if Truthy(takenAt) then Some(ToIso(takenAt).value) else None))
  }

  /** A post object with none of the optional fields gets every default. */
  lemma BareInfo(commentsCount: nat)
    ensures InfoOf(Obj(map[]), commentsCount) ==
      Success(PostInfo(Str(""), Str(""), false, false, Num(0), false, Str(""), commentsCount, None))
  {
  }

  /** The public result of a resolve. */
  datatype ResolvedPost = ResolvedPost(
    resultsNumber: nat,
    urlList: seq<Value>,
    postInfo: PostInfo,
    mediaDetails: seq<MediaItem>,
    comments: seq<Comment>)

  /** The comments of a post: formatted from the parent-comment edges when those are truthy, else none. */
  function CommentsOf(post: Value): Result<seq<Comment>, Exception>
    requires !Nullish(post)
  {
    var parent := Get(post, "edge_media_to_parent_comment");
    if Truthy(parent) then FormatComments(Get(parent, "edges")) else Success([])
  }

  /**
   * The result object of lines 186-202. Media are built first, so a media error wins
   * over a comment error.
   */
  function AssemblePost(post: Value): (r: Result<ResolvedPost, Exception>)
    requires Truthy(post)
    ensures r.Success? <==>
      MediaOf(post).Success? && CommentsOf(post).Success? && InfoOf(post, |CommentsOf(post).value|).Success?
    ensures MediaOf(post).Failure? ==> r == Failure(MediaOf(post).error)
    ensures MediaOf(post).Success? && CommentsOf(post).Failure? ==> r == Failure(CommentsOf(post).error)
    ensures MediaOf(post).Success? && CommentsOf(post).Success? && InfoOf(post, |CommentsOf(post).value|).Failure? ==>
      r == Failure(InvalidTime)
    ensures r.Success? ==>
      && r.value.resultsNumber == |r.value.urlList| == |r.value.mediaDetails|
      && (forall i :: 0 <= i < |r.value.urlList| ==> r.value.urlList[i] == r.value.mediaDetails[i].url)
      && r.value.mediaDetails == MediaOf(post).value
      && r.value.comments == CommentsOf(post).value
      && r.value.postInfo == InfoOf(post, |r.value.comments|).value
      && r.value.postInfo.commentsCount == |r.value.comments|
      && (!IsSidecar(post) ==> r.value.resultsNumber == 1)
  {
    match MediaOf(post)
    case Failure(e) => Failure(e)
    case Success(media) =>
      match CommentsOf(post)
      case Failure(e) => Failure(e)
      case Success(comments) =>
        match InfoOf(post, |comments|)
        case Failure(e) => Failure(e)
        case Success(info) =>
          var urls := seq(|media|, i requires 0 <= i < |media| => media[i].url);
          Success(ResolvedPost(|urls|, urls, info, media, comments))
  }

  /** Lines 168-202 as the source runs them: push loop, imperative filter, then the record. */
  method BuildResult(post: Value) returns (r: Result<ResolvedPost, Exception>)
    requires Truthy(post)
    ensures r == AssemblePost(post)
  {
    var media := CollectMedia(post);
    if media.Failure? {
      return Failure(media.error);
    }
    var (mediaDetails, urlList) := media.value;
    var comments: seq<Comment> := [];
    var parent := Get(post, "edge_media_to_parent_comment");
    if Truthy(parent) {
      var built := BuildComments(Get(parent, "edges"));
      if built.Failure? {
        return Failure(built.error);
      }
      comments := built.value;
    }
    var info := InfoOf(post, |comments|);
    if info.Failure? {
      return Failure(info.error);
    }
    r := Success(ResolvedPost(|urlList|, urlList, info.value, mediaDetails, comments));
    assert urlList == seq(|mediaDetails|, i requires 0 <= i < |mediaDetails| => mediaDetails[i].url);
  }
}
