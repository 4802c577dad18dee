/**
  The catalog crawler of `useSambangoTree`: a depth-bounded, depth-first walk of a
  directory-listing server that turns each listing into File and Folder nodes.
  The network, HTML parsing, URL resolution and percent-decoding are the oracles of `Web`.
*/
module Catalog {
  import opened Wrappers
  import opened Text

  type Url = string

  /** The raw `href` attribute of one anchor in a listing page. */
  type Href = string

  /** One catalog entry: an audio file with its derived title, or a folder with its (non-empty) contents. */
  datatype Node =
    | File(name: string, url: Url, title: string)
    | Folder(name: string, url: Url, children: seq<Node>)

  /**
    The world the crawler observes.
    - `listing(dir)`: the hrefs of every anchor in the listing page of `dir`, in page order, or
      None when the response is not OK or the request or parse throws;
    - `resolve(href, base)`: the absolute form of `href` against `base`, None when the URL
      constructor throws on a malformed link;
    - `pathname(u)`: `new URL(u).pathname`;
    - `decode(s)`: `decodeURIComponent(s)`, None when it throws on a malformed escape.
  */
  datatype Web = Web(
    listing: Url -> Option<seq<Href>>,
    resolve: (Href, Url) -> Option<Url>,
    pathname: Url -> string,
    decode: string -> Option<string>)

  /** The path segment the catalog is mounted under, left out of titles. */
  const MountSegment: string := "ritmos"

  /** The only extension the crawler recognises as audio. */
  const AudioExtension: string := ".mp3"

  /** `xs` is an order-preserving subsequence of `ys`. */
  predicate Subsequence<T(==)>(xs: seq<T>, ys: seq<T>)
    decreases |ys|
  {
    if |xs| == 0 then true
    else if |ys| == 0 then false
    else if xs[0] == ys[0] then Subsequence(xs[1..], ys[1..])
    else Subsequence(xs, ys[1..])
  }

  /** The link filter: non-empty, not the parent marker, not a query, fragment or root-relative link. */
  predicate KeepHref(href: Href) {
    && href != ""
    && href != "../"
    && !StartsWith(href, "?")
    && !StartsWith(href, "#")
    && !StartsWith(href, "/")
  }

  /** The links of a listing the crawler looks at, in page order. */
  function KeepLinks(hrefs: seq<Href>): (links: seq<Href>)
    ensures forall i :: 0 <= i < |links| ==> KeepHref(links[i]) && links[i] in hrefs
    ensures forall i :: 0 <= i < |hrefs| && KeepHref(hrefs[i]) ==> hrefs[i] in links
    ensures Subsequence(links, hrefs)
    decreases |hrefs|
  {
    if |hrefs| == 0 then []
    else
      var rest := KeepLinks(hrefs[1..]);
      assert forall i :: 1 <= i < |hrefs| ==> hrefs[i] == hrefs[1..][i - 1];
      if KeepHref(hrefs[0]) then [hrefs[0]] + rest else rest
  }

  /** Filtering distributes over concatenation: each stretch of a listing is filtered on its own. */
  lemma {:induction false} KeepLinksAppend(a: seq<Href>, b: seq<Href>)
    ensures KeepLinks(a + b) == KeepLinks(a) + KeepLinks(b)
    decreases |a|
  {
    if |a| == 0 {
      assert a + b == b;
    } else {
      assert (a + b)[0] == a[0] && (a + b)[1..] == a[1..] + b;
      KeepLinksAppend(a[1..], b);
    }
  }

  /** The filter keeps every occurrence of a kept link and none of a dropped one. */
  lemma {:induction false} KeepLinksCount(hrefs: seq<Href>)
    ensures forall h :: multiset(KeepLinks(hrefs))[h] == if KeepHref(h) then multiset(hrefs)[h] else 0
    decreases |hrefs|
  {
    if |hrefs| > 0 {
      KeepLinksCount(hrefs[1..]);
      assert hrefs == [hrefs[0]] + hrefs[1..];
    }
  }

  /** A one-link listing keeps its link exactly when the filter does. */
  lemma KeepLinksSingle(h: Href)
    ensures KeepLinks([h]) == if KeepHref(h) then [h] else []
  {
    assert [h][1..] == [];
  }

  /** The directory URL as a resolution base: with a trailing slash added when missing. */
  function Base(url: Url): (b: Url)
    ensures EndsWith(b, "/")
    ensures EndsWith(url, "/") ==> b == url
    ensures !EndsWith(url, "/") ==> b == url + "/"
  {
    if EndsWith(url, "/") then url else url + "/"
  }

  /** The path segments that make up a title: non-empty ones other than the mount segment. */
  function TitleSegments(parts: seq<string>): (r: seq<string>)
    ensures forall i :: 0 <= i < |r| ==> r[i] != "" && r[i] != MountSegment
    ensures Subsequence(r, parts)
    ensures forall i :: 0 <= i < |parts| && parts[i] != "" && parts[i] != MountSegment ==> parts[i] in r
    decreases |parts|
  {
    if |parts| == 0 then []
    else
      var rest := TitleSegments(parts[1..]);
      assert forall i :: 1 <= i < |parts| ==> parts[i] == parts[1..][i - 1];
      if parts[0] != "" && parts[0] != MountSegment then [parts[0]] + rest else rest
  }

  /** Segment filtering distributes over concatenation, one segment at a time. */
  lemma {:induction false} TitleSegmentsAppend(a: seq<string>, b: seq<string>)
    ensures TitleSegments(a + b) == TitleSegments(a) + TitleSegments(b)
    decreases |a|
  {
    if |a| == 0 {
      assert a + b == b;
    } else {
      assert (a + b)[0] == a[0] && (a + b)[1..] == a[1..] + b;
      TitleSegmentsAppend(a[1..], b);
    }
  }

  /** Every occurrence of a title segment is kept, and none of a dropped one. */
  lemma {:induction false} TitleSegmentsCount(parts: seq<string>)
    ensures forall p :: multiset(TitleSegments(parts))[p] == if p != "" && p != MountSegment then multiset(parts)[p] else 0
    decreases |parts|
  {
    if |parts| > 0 {
      TitleSegmentsCount(parts[1..]);
      assert parts == [parts[0]] + parts[1..];
    }
  }

  /** A one-segment path keeps its segment exactly when it is non-empty and not the mount segment. */
  lemma TitleSegmentsSingle(p: string)
    ensures TitleSegments([p]) == if p != "" && p != MountSegment then [p] else []
  {
    assert [p][1..] == [];
  }

  /** Percent-decodes every segment; a single malformed segment makes the whole decoding throw. */
  function DecodeAll(parts: seq<string>, decode: string -> Option<string>): (r: Option<seq<string>>)
    ensures r.Some? <==> forall i :: 0 <= i < |parts| ==> decode(parts[i]).Some?
    ensures r.Some? ==> |r.value| == |parts|
    ensures r.Some? ==> forall i :: 0 <= i < |parts| ==> decode(parts[i]) == Some(r.value[i])
    decreases |parts|
  {
    if |parts| == 0 then Some([])
    else
      match decode(parts[0])
      case None => None
      case Some(d) =>
        match DecodeAll(parts[1..], decode)
        case None =>
          assert forall i :: 1 <= i < |parts| ==> parts[i] == parts[1..][i - 1];
          None
        case Some(ds) => Some([d] + ds)
  }

  /**
    The title of an audio file at `fullUrl`: its decoded path segments without the mount
    segment; the last one with its first ".mp3" removed is the base title, and any folder
    path before it is joined with " - " and prefixed. None stands for the exception thrown
    by a malformed escape or by a path with no segment left.
  */
  function TitleOf(web: Web, fullUrl: Url): (r: Option<string>)
    ensures r.None? <==>
              || DecodeAll(TitleSegments(Split(web.pathname(fullUrl), '/')), web.decode).None?
              || |TitleSegments(Split(web.pathname(fullUrl), '/'))| == 0
  {
    var parts := TitleSegments(Split(web.pathname(fullUrl), '/'));
    match DecodeAll(parts, web.decode)
    case None => None
    case Some(decoded) =>
      if |decoded| == 0 then None
      else
        var fileName := ReplaceFirst(decoded[|decoded| - 1], AudioExtension, "");
        var folderPath := Join(decoded[..|decoded| - 1], " - ");
        Some(if folderPath != "" then folderPath + " - " + fileName else fileName)
  }

  /** No folder anywhere in the forest is empty. */
  predicate NoEmptyFolder(ns: seq<Node>)
    decreases ns
  {
    forall i :: 0 <= i < |ns| ==> (ns[i].Folder? ==> |ns[i].children| > 0 && NoEmptyFolder(ns[i].children))
  }

  /** Every path from the forest's roots to a leaf passes through at most `levels` nodes. */
  predicate FitsLevels(ns: seq<Node>, levels: nat)
    decreases ns
  {
    forall n :: n in ns ==> levels >= 1 && (n.Folder? ==> FitsLevels(n.children, levels - 1))
  }

  /** No node of the forest points back at the directory `url` it was listed in. */
  predicate NoSelfLoop(ns: seq<Node>, url: Url) {
    forall i :: 0 <= i < |ns| ==> ns[i].url != url && ns[i].url != Base(url)
  }

  /** Placing two forests side by side keeps each property that both of them have. */
  lemma ForestAppend(a: seq<Node>, b: seq<Node>, levels: nat, url: Url)
    requires NoEmptyFolder(a) && NoEmptyFolder(b)
    requires FitsLevels(a, levels) && FitsLevels(b, levels)
    requires NoSelfLoop(a, url) && NoSelfLoop(b, url)
    ensures NoEmptyFolder(a + b) && FitsLevels(a + b, levels) && NoSelfLoop(a + b, url)
  {
    assert forall i :: |a| <= i < |a + b| ==> (a + b)[i] == b[i - |a|];
  }

  /** How many more levels a walk at `depth` may still list. */
  function Budget(depth: nat, maxDepth: int): nat {
    if depth > maxDepth then 0 else maxDepth - depth + 1
  }

  /**
    `exploreSambangoDirectory(url, depth, maxDepth)`: beyond the depth bound, on a failed
    listing, or when processing any link throws, the directory yields no nodes. Otherwise every
    kept link contributes at most one node, in listing order; folders are kept only when their
    own walk yields something.
  */
  function Explore(web: Web, url: Url, depth: nat, maxDepth: int): (r: seq<Node>)
    ensures depth > maxDepth ==> r == []
    ensures web.listing(url).None? ==> r == []
    ensures NoEmptyFolder(r)
    ensures FitsLevels(r, Budget(depth, maxDepth))
    ensures NoSelfLoop(r, url)
    decreases Budget(depth, maxDepth), 2
  {
    if depth > maxDepth then []
    else
      match web.listing(url)
      case None => []
      case Some(hrefs) =>
        match Items(web, url, KeepLinks(hrefs), depth, maxDepth)
        case None => []
        case Some(items) => items
  }

  /** The loop over the kept links: the nodes of each link in turn; an exception aborts the loop. */
  function Items(web: Web, url: Url, links: seq<Href>, depth: nat, maxDepth: int): (r: Option<seq<Node>>)
    requires depth <= maxDepth
    ensures r.Some? ==> |r.value| <= |links|
    ensures r.Some? ==> NoEmptyFolder(r.value)
    ensures r.Some? ==> FitsLevels(r.value, Budget(depth, maxDepth))
    ensures r.Some? ==> NoSelfLoop(r.value, url)
    decreases Budget(depth, maxDepth), 1, |links|
  {
    if |links| == 0 then Some([])
    else
      match LinkItem(web, url, links[0], depth, maxDepth)
      case None => None
      case Some(first) =>
        match Items(web, url, links[1..], depth, maxDepth)
        case None => None
        case Some(rest) =>
          ForestAppend(first, rest, Budget(depth, maxDepth), url);
          Some(first + rest)
  }

  /**
    The body of the loop for one link: the resolved URL and the name are computed first (a
    malformed link or name throws), a link back to the directory itself is skipped, an ".mp3" link
    becomes a File, a "/" link a Folder when its walk one level deeper is non-empty, and
    anything else is ignored.
  */
  function LinkItem(web: Web, url: Url, href: Href, depth: nat, maxDepth: int): (r: Option<seq<Node>>)
    requires depth <= maxDepth
    ensures r.Some? ==> |r.value| <= 1
    ensures r.Some? ==> NoEmptyFolder(r.value)
    ensures r.Some? ==> FitsLevels(r.value, Budget(depth, maxDepth))
    ensures r.Some? ==> NoSelfLoop(r.value, url)
    decreases Budget(depth, maxDepth), 0
  {
    var base := Base(url);
    match web.resolve(href, base)
    case None => None
    case Some(fullUrl) =>
    match web.decode(DropTrailingSlash(href))
    case None => None
    case Some(name) =>
      if fullUrl == url || fullUrl == base then Some([])
      else if EndsWith(href, AudioExtension) then
        match TitleOf(web, fullUrl)
        case None => None
        case Some(title) => Some([File(name, fullUrl, title)])
      else if EndsWith(href, "/") then
        var subTree := Explore(web, fullUrl, depth + 1, maxDepth);
        if |subTree| > 0 then Some([Folder(name, fullUrl, subTree)]) else Some([])
      else Some([])
  }
}
