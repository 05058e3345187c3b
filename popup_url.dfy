/**
 * The popup's URL depth editor (src/popup/popup.js): `parseUrl` splits a page URL into the
 * origin, which is always kept, and the optional parts after it (one `/segment` per path
 * component, then the query, then the fragment); the depth slider rebuilds the URL from the
 * origin and the first `depth` parts.
 */
module PopupUrl {
  import opened Common
  import opened Text

  /** The parts of a URL that `parseUrl` reads from the WHATWG URL parser. */
  datatype ParsedUrl = ParsedUrl(origin: string, pathname: string, search: string, hash: string)

  /** `parseUrl`'s result: the part always shown, the parts the slider can add, and the input. */
  datatype UrlParts = UrlParts(domain: string, segments: seq<string>, full: string)

  /** `/^https?:\/\//i`. */
  predicate HasHttpScheme(url: string) {
    OccursAtIgnoringCase(url, "http://", 0) || OccursAtIgnoringCase(url, "https://", 0)
  }

  /** The string handed to the URL parser: `https://` is put in front of a URL that does not
      start with an HTTP scheme. */
  function FixedUrl(url: string): (fixed: string)
    ensures HasHttpScheme(url) ==> fixed == url
    ensures !HasHttpScheme(url) ==> fixed == "https://" + url
  {
    if HasHttpScheme(url) then url else "https://" + url
  }

  /** The path without one leading and then one trailing `/`. */
  function StripSlashes(pathname: string): (path: string)
    ensures var start := if |pathname| > 0 && pathname[0] == '/' then 1 else 0;
            start + |path| <= |pathname| && path == pathname[start..start + |path|]
            && |pathname| - |path| - start <= 1
            && (start + |path| < |pathname| ==> pathname[|pathname| - 1] == '/')
            && (|path| > 0 && path[|path| - 1] == '/' ==> |pathname| == start + |path| + 1)
  {
    var p := if |pathname| > 0 && pathname[0] == '/' then pathname[1..] else pathname;
    if |p| > 0 && p[|p| - 1] == '/' then p[..|p| - 1] else p
  }

  /** Each piece with a `/` in front. */
  function Prefixed(pieces: seq<string>): (segments: seq<string>)
    ensures |segments| == |pieces|
    ensures forall i :: 0 <= i < |pieces| ==> segments[i] == "/" + pieces[i]
  {
    seq(|pieces|, i requires 0 <= i < |pieces| => "/" + pieces[i])
  }

  /** The segments of a stripped path: none for the empty path, else one per `/`-separated
      piece. */
  function PathSegments(path: string): (segments: seq<string>)
    ensures path == "" ==> segments == []
    ensures path != "" ==> segments == Prefixed(Split(path, OneOf({'/'})))
  {
    if path == "" then [] else Prefixed(Split(path, OneOf({'/'})))
  }

  /** The optional part `part` as a list: empty when `part` is. */
  function IfPresent(part: string): (r: seq<string>)
    ensures part == "" ==> r == []
    ensures part != "" ==> r == [part]
  {
    if part == "" then [] else [part]
  }

  /** `parseUrl` when the URL parser accepts the input. */
  function PartsOf(u: ParsedUrl, url: string): (parts: UrlParts)
    ensures parts.domain == u.origin && parts.full == url
    ensures var n := |PathSegments(StripSlashes(u.pathname))|;
            n <= |parts.segments|
            && parts.segments[..n] == PathSegments(StripSlashes(u.pathname))
            && parts.segments[n..] == IfPresent(u.search) + IfPresent(u.hash)
    ensures forall i :: 0 <= i < |PathSegments(StripSlashes(u.pathname))| ==>
              |parts.segments[i]| > 0 && parts.segments[i][0] == '/'
  {
    var path := PathSegments(StripSlashes(u.pathname));
    var segments := path + IfPresent(u.search) + IfPresent(u.hash);
    assert segments[..|path|] == path;
    assert segments[|path|..] == IfPresent(u.search) + IfPresent(u.hash);
    UrlParts(u.origin, segments, url)
  }

  /** The manual split used when the URL parser rejects the input: everything before the
      first `/` after `://` (or the first `/` at all when there is no `://`) is the domain, and
      the non-empty `/`-separated pieces of the rest are the segments. */
  function FallbackParts(url: string): (parts: UrlParts)
    ensures parts.full == url
    ensures PathStart(url).None? ==> parts.domain == url && parts.segments == []
    ensures PathStart(url).Some? ==>
              var ps := PathStart(url).value;
              parts.domain == url[..ps] && url[ps] == '/'
              && parts.segments == Prefixed(Filter(Split(url[ps..], OneOf({'/'})), NonEmpty))
    ensures forall i :: 0 <= i < |parts.segments| ==>
              |parts.segments[i]| > 1 && parts.segments[i][0] == '/'
              && Avoids(parts.segments[i][1..], {'/'})
  {
    match PathStart(url)
    case None => UrlParts(url, [], url)
    case Some(ps) =>
      var pieces := Split(url[ps..], OneOf({'/'}));
      var kept := Filter(pieces, NonEmpty);
      SplitAvoids(url[ps..], {'/'});
      var segments := Prefixed(kept);
      forall i | 0 <= i < |segments| ensures Avoids(segments[i][1..], {'/'}) {
        assert kept[i] in kept;
        assert segments[i][1..] == kept[i];
      }
      UrlParts(url[..ps], segments, url)
  }

  /** Where the path starts in the manual split. */
  function PathStart(url: string): (ps: Option<nat>)
    ensures ps.Some? ==> ps.value < |url| && url[ps.value] == '/'
    ensures IndexOf(url, "://", 0).Some? ==>
              ps == IndexOf(url, "/", IndexOf(url, "://", 0).value + 3)
    ensures IndexOf(url, "://", 0).None? ==> ps == IndexOf(url, "/", 0)
  {
    var r := match IndexOf(url, "://", 0)
      case Some(p) => IndexOf(url, "/", p + 3)
      case None => IndexOf(url, "/", 0);
    if r.Some? then
      assert OccursAt(url, "/", r.value);
      assert url[r.value..r.value + 1][0] == url[r.value];
      r
    else r
  }

  /** `parseUrl`, with the URL parser as `parse` (`None` when it throws). */
  function ParseUrl(url: string, parse: string -> Option<ParsedUrl>): (parts: UrlParts)
    ensures parse(FixedUrl(url)).Some? ==> parts == PartsOf(parse(FixedUrl(url)).value, url)
    ensures parse(FixedUrl(url)).None? ==> parts == FallbackParts(url)
  {
    match parse(FixedUrl(url))
    case Some(u) => PartsOf(u, url)
    case None => FallbackParts(url)
  }

  // ---------------------------------------------------------------- the depth slider

  /** How many parts the slider at `depth` selects. */
  function Selected(depth: int, n: nat): (k: nat)
    ensures k <= n
    ensures depth <= 0 ==> k == 0
    ensures 0 <= depth <= n ==> k == depth
    ensures depth >= n ==> k == n
  {
    if depth <= 0 then 0 else if depth <= n then depth else n
  }

  /** The URL the slider at `depth` produces: the domain and the first `depth` parts. */
  function UrlAtDepth(parts: UrlParts, depth: int): string {
    parts.domain + Concat(parts.segments[..Selected(depth, |parts.segments|)])
  }

  /** The rebuild loop of `updateUrlVisualization`. */
  method RebuildUrl(parts: UrlParts, depth: int) returns (newUrl: string)
    ensures newUrl == UrlAtDepth(parts, depth)
  {
    newUrl := parts.domain;
    var i := 0;
    while i < depth && i < |parts.segments|
      invariant 0 <= i <= Selected(depth, |parts.segments|)
      invariant newUrl == parts.domain + Concat(parts.segments[..i])
      decreases |parts.segments| - i
    {
      ConcatAppend(parts.segments[..i], [parts.segments[i]]);
      assert parts.segments[..i + 1] == parts.segments[..i] + [parts.segments[i]];
      assert Concat([parts.segments[i]]) == parts.segments[i];
      newUrl := newUrl + parts.segments[i];
      i := i + 1;
    }
  }

  /** Depth zero (or less) gives the bare domain; full depth (or more) gives the domain with
      every part; each step of the slider appends exactly the next part. */
  lemma DepthBounds(parts: UrlParts, depth: int)
    ensures depth <= 0 ==> UrlAtDepth(parts, depth) == parts.domain
    ensures depth >= |parts.segments| ==> UrlAtDepth(parts, depth) == parts.domain + Concat(parts.segments)
    ensures 0 <= depth < |parts.segments| ==>
              UrlAtDepth(parts, depth + 1) == UrlAtDepth(parts, depth) + parts.segments[depth]
  {
    assert parts.segments[..|parts.segments|] == parts.segments;
    if 0 <= depth < |parts.segments| {
      ConcatAppend(parts.segments[..depth], [parts.segments[depth]]);
      assert parts.segments[..depth + 1] == parts.segments[..depth] + [parts.segments[depth]];
      assert Concat([parts.segments[depth]]) == parts.segments[depth];
    }
  }

  /** The `/piece` segments of a `/`-joined list put back the joined list with a `/` in front. */
  lemma {:induction false} ConcatPrefixed(pieces: seq<string>)
    requires pieces != []
    ensures Concat(Prefixed(pieces)) == "/" + Join(pieces, '/')
  {
    if |pieces| > 1 {
      ConcatPrefixed(pieces[1..]);
      assert Prefixed(pieces)[1..] == Prefixed(pieces[1..]);
    } else {
      assert Prefixed(pieces)[1..] == [];
    }
  }

  /** At full depth the slider puts back the origin, the path without its outer slashes
      (with one `/` in front), the query and the fragment. */
  lemma FullDepthSuccess(u: ParsedUrl, url: string)
    ensures var path := StripSlashes(u.pathname);
            UrlAtDepth(PartsOf(u, url), |PartsOf(u, url).segments|)
            == u.origin + (if path == "" then "" else "/" + path) + (u.search + u.hash)
  {
    var path := StripSlashes(u.pathname);
    FullDepthSplit(PartsOf(u, url), PathSegments(path), IfPresent(u.search) + IfPresent(u.hash));
    OptionalParts(u.search, u.hash);
    PathConcat(path);
  }

  /** Full depth over parts that are a head list followed by a tail list. */
  lemma FullDepthSplit(parts: UrlParts, head: seq<string>, tail: seq<string>)
    requires |head| <= |parts.segments|
    requires parts.segments[..|head|] == head && parts.segments[|head|..] == tail
    ensures UrlAtDepth(parts, |parts.segments|) == parts.domain + Concat(head) + Concat(tail)
  {
    assert parts.segments == head + tail;
    DepthBounds(parts, |parts.segments|);
    ConcatAppend(head, tail);
    assert parts.domain + (Concat(head) + Concat(tail)) == parts.domain + Concat(head) + Concat(tail);
  }

  /** The query and fragment parts put back the query and the fragment. */
  lemma OptionalParts(search: string, hash: string)
    ensures Concat(IfPresent(search) + IfPresent(hash)) == search + hash
  {
    ConcatAppend(IfPresent(search), IfPresent(hash));
    assert Concat(IfPresent(search)) == search;
    assert Concat(IfPresent(hash)) == hash;
  }

  /** The path segments put back the stripped path with one `/` in front. */
  lemma PathConcat(path: string)
    ensures Concat(PathSegments(path)) == if path == "" then "" else "/" + path
  {
    if path != "" {
      ConcatPrefixed(Split(path, OneOf({'/'})));
      SplitThenJoin(path, '/');
    }
  }

  /** So a URL whose path starts with `/` and neither ends with `/` nor is just `/` is rebuilt
      exactly at full depth. */
  lemma FullDepthRestoresUrl(u: ParsedUrl, url: string)
    requires |u.pathname| >= 2 && u.pathname[0] == '/' && u.pathname[|u.pathname| - 1] != '/'
    ensures UrlAtDepth(PartsOf(u, url), |PartsOf(u, url).segments|)
            == u.origin + u.pathname + u.search + u.hash
  {
    FullDepthSuccess(u, url);
    var path := StripSlashes(u.pathname);
    assert path == u.pathname[1..];
    assert "/" + path == u.pathname;
  }

  /** In the manual split, when no piece after the leading `/` is empty (no `//` and no
      trailing `/`), full depth gives back the input. */
  lemma FullDepthFallback(url: string)
    requires PathStart(url).Some?
    requires var pieces := Split(url[PathStart(url).value..], OneOf({'/'}));
             forall k :: 1 <= k < |pieces| ==> pieces[k] != ""
    ensures UrlAtDepth(FallbackParts(url), |FallbackParts(url).segments|) == url
  {
    var ps := PathStart(url).value;
    var rest := url[ps..];
    var pieces := Split(rest, OneOf({'/'}));
    var parts := FallbackParts(url);
    DepthBounds(parts, |parts.segments|);
    SplitThenJoin(rest, '/');
    FirstPieceEmpty(rest);
    assert pieces[0] == "";
    FilterAfterEmpty(pieces);
    assert Join(pieces, '/') == "" + "/" + Join(pieces[1..], '/');
    ConcatPrefixed(pieces[1..]);
    assert url == url[..ps] + rest;
  }

  /** Splitting a text that starts with `/` on `/` gives an empty first piece. */
  lemma FirstPieceEmpty(rest: string)
    requires |rest| > 0 && rest[0] == '/'
    ensures Split(rest, OneOf({'/'}))[0] == ""
  {
    assert SepLength(OneOf({'/'}), rest, 0) == 1;
  }

  /** Filtering an empty first piece and non-empty others leaves the others. */
  lemma FilterAfterEmpty(pieces: seq<string>)
    requires |pieces| >= 1 && pieces[0] == ""
    requires forall k :: 1 <= k < |pieces| ==> pieces[k] != ""
    ensures Filter(pieces, NonEmpty) == pieces[1..]
  {
    FilterAllKept(pieces[1..]);
  }

  /** Filtering keeps a list whose strings are all non-empty. */
  lemma {:induction false} FilterAllKept(pieces: seq<string>)
    requires forall k :: 0 <= k < |pieces| ==> pieces[k] != ""
    ensures Filter(pieces, NonEmpty) == pieces
  {
    if pieces != [] {
      FilterAllKept(pieces[1..]);
    }
  }

  /** The parts of `https://example.com/a/b?x=1`. */
  lemma ExampleUrl(url: string, u: ParsedUrl, parse: string -> Option<ParsedUrl>)
    requires url == "https://example.com/a/b?x=1"
    requires u == ParsedUrl("https://example.com", "/a/b", "?x=1", "")
    requires parse(FixedUrl(url)) == Some(u)
    ensures ParseUrl(url, parse) == UrlParts("https://example.com", ["/a", "/b", "?x=1"], url)
  {
    var path := StripSlashes(u.pathname);
    assert path == "a/b";
    ExamplePath(path);
    var segments := Prefixed(["a", "b"]);
    assert segments[0] == "/" + "a" == "/a" && segments[1] == "/" + "b" == "/b";
    assert segments == ["/a", "/b"];
    assert IfPresent(u.search) + IfPresent(u.hash) == ["?x=1"];
  }

  lemma ExamplePath(path: string)
    requires path == "a/b"
    ensures Split(path, OneOf({'/'})) == ["a", "b"]
  {
    assert SepLength(OneOf({'/'}), path, 0) == 0;
    assert SepLength(OneOf({'/'}), path, 1) == 1;
    assert SepLength(OneOf({'/'}), path, 2) == 0;
    assert path[2..] == "b" && path[0..1] == "a";
    assert SplitFrom(path, OneOf({'/'}), 2, 3) == ["b"];
    assert SplitFrom(path, OneOf({'/'}), 2, 2) == ["b"];
    assert SplitFrom(path, OneOf({'/'}), 0, 1) == ["a", "b"];
  }
}
