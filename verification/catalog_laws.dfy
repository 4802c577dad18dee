/** Properties of the crawl: where every node comes from, failure isolation, depth truncation and titles. */
module CatalogLaws {
  import opened Wrappers
  import opened Text
  import opened Catalog

  /**
    Processing the link `href` of directory `url` throws, and so aborts the whole directory:
    the link cannot be resolved, its name cannot be decoded, or it is an ".mp3" link (not back
    to the directory) whose title cannot be derived.
  */
  predicate Throws(web: Web, url: Url, href: Href) {
    match web.resolve(href, Base(url))
    case None => true
    case Some(full) =>
      || web.decode(DropTrailingSlash(href)).None?
      || (full != url && full != Base(url) && EndsWith(href, AudioExtension) && TitleOf(web, full).None?)
  }

  /**
    The link `href` is processed without effect: it points back at the directory, it is neither
    an ".mp3" nor a "/" link, or it is a folder link whose walk one level deeper is empty.
  */
  predicate Skips(web: Web, url: Url, depth: nat, maxDepth: int, href: Href) {
    match web.resolve(href, Base(url))
    case None => false
    case Some(full) =>
      && web.decode(DropTrailingSlash(href)).Some?
      && (|| full == url || full == Base(url)
          || (!EndsWith(href, AudioExtension) && !EndsWith(href, "/"))
          || (!EndsWith(href, AudioExtension) && EndsWith(href, "/") && Explore(web, full, depth + 1, maxDepth) == []))
  }

  /**
    Node `n` is what the link `href` of directory `url`, walked at `depth`, produces: its URL is
    the link resolved against the directory, it is not the directory itself, its name is the
    decoded link, a File comes from an ".mp3" link with the derived title, and a Folder from
    a "/" link with the (non-empty) deeper walk as its children.
  */
  predicate Emits(web: Web, url: Url, depth: nat, maxDepth: int, href: Href, n: Node) {
    && web.resolve(href, Base(url)) == Some(n.url)
    && n.url != url && n.url != Base(url)
    && web.decode(DropTrailingSlash(href)) == Some(n.name)
    && (n.File? ==> EndsWith(href, AudioExtension) && TitleOf(web, n.url) == Some(n.title))
    && (n.Folder? ==> && EndsWith(href, "/") && !EndsWith(href, AudioExtension)
                      && n.children == Explore(web, n.url, depth + 1, maxDepth) && |n.children| > 0)
  }

  /**
    `nodes` is what the loop over `links` produces when no link throws: each link in turn either
    is skipped or emits the next node.
  */
  predicate Matches(web: Web, url: Url, depth: nat, maxDepth: int, links: seq<Href>, nodes: seq<Node>)
    decreases |links|
  {
    if |links| == 0 then nodes == []
    else
      || (Skips(web, url, depth, maxDepth, links[0]) && Matches(web, url, depth, maxDepth, links[1..], nodes))
      || (&& |nodes| > 0 && Emits(web, url, depth, maxDepth, links[0], nodes[0])
          && Matches(web, url, depth, maxDepth, links[1..], nodes[1..]))
  }

  /**
    What one link yields, in all three directions: it throws exactly when `Throws`, yields no
    node exactly when `Skips`, and yields the node `n` exactly when it `Emits` `n`. In
    particular a resolvable, decodable ".mp3" link that is not the directory yields its File
    whenever its title can be derived, and a "/" link yields its Folder whenever the deeper walk
    is non-empty.
  */
  lemma LinkItemEmits(web: Web, url: Url, href: Href, depth: nat, maxDepth: int)
    requires depth <= maxDepth
    ensures LinkItem(web, url, href, depth, maxDepth).None? <==> Throws(web, url, href)
    ensures LinkItem(web, url, href, depth, maxDepth) == Some([]) <==> Skips(web, url, depth, maxDepth, href)
    ensures forall n :: LinkItem(web, url, href, depth, maxDepth) == Some([n]) <==> Emits(web, url, depth, maxDepth, href, n)
  {
    match web.resolve(href, Base(url))
    case None =>
    case Some(full) =>
      match web.decode(DropTrailingSlash(href))
      case None =>
      case Some(name) =>
        if full == url || full == Base(url) {
        } else if EndsWith(href, AudioExtension) {
          forall n | Emits(web, url, depth, maxDepth, href, n) ensures n == File(name, full, TitleOf(web, full).value) {
          }
        } else if EndsWith(href, "/") {
          forall n | Emits(web, url, depth, maxDepth, href, n)
            ensures n == Folder(name, full, Explore(web, full, depth + 1, maxDepth))
          {
          }
        }
  }

  /** The link loop aborts exactly when one of its links throws. */
  lemma {:induction false} ItemsFailIff(web: Web, url: Url, links: seq<Href>, depth: nat, maxDepth: int)
    requires depth <= maxDepth
    ensures Items(web, url, links, depth, maxDepth).None? <==> exists i :: 0 <= i < |links| && Throws(web, url, links[i])
    decreases |links|
  {
    if |links| > 0 {
      ItemsFailIff(web, url, links[1..], depth, maxDepth);
      LinkItemEmits(web, url, links[0], depth, maxDepth);
      if exists i :: 0 <= i < |links[1..]| && Throws(web, url, links[1..][i]) {
        var i :| 0 <= i < |links[1..]| && Throws(web, url, links[1..][i]);
        assert links[i + 1] == links[1..][i];
      }
      if exists i :: 0 <= i < |links| && Throws(web, url, links[i]) {
        var i :| 0 <= i < |links| && Throws(web, url, links[i]);
        if i > 0 {
          assert links[1..][i - 1] == links[i];
        }
      }
    }
  }

  /** When the link loop completes, its nodes are what its links produce, in listing order. */
  lemma {:induction false} ItemsMatch(web: Web, url: Url, links: seq<Href>, depth: nat, maxDepth: int)
    requires depth <= maxDepth
    requires Items(web, url, links, depth, maxDepth).Some?
    ensures Matches(web, url, depth, maxDepth, links, Items(web, url, links, depth, maxDepth).value)
    decreases |links|
  {
    if |links| > 0 {
      var first := LinkItem(web, url, links[0], depth, maxDepth).value;
      var rest := Items(web, url, links[1..], depth, maxDepth).value;
      ItemsMatch(web, url, links[1..], depth, maxDepth);
      LinkItemEmits(web, url, links[0], depth, maxDepth);
      var all := first + rest;
      if |first| == 1 {
        assert all[0] == first[0] && all[1..] == rest;
      } else {
        assert all == rest;
      }
    }
  }

  /** Links determine what they produce: at most one sequence of nodes matches them. */
  lemma {:induction false} MatchesUnique(web: Web, url: Url, depth: nat, maxDepth: int, links: seq<Href>, a: seq<Node>, b: seq<Node>)
    requires depth <= maxDepth
    requires Matches(web, url, depth, maxDepth, links, a) && Matches(web, url, depth, maxDepth, links, b)
    ensures a == b
    decreases |links|
  {
    if |links| > 0 {
      LinkItemEmits(web, url, links[0], depth, maxDepth);
      if Skips(web, url, depth, maxDepth, links[0]) {
        MatchesUnique(web, url, depth, maxDepth, links[1..], a, b);
      } else {
        MatchesUnique(web, url, depth, maxDepth, links[1..], a[1..], b[1..]);
        assert a == [a[0]] + a[1..] && b == [b[0]] + b[1..];
      }
    }
  }

  /** Links that match some nodes never throw, so the loop over them completes. */
  lemma {:induction false} MatchesCompletes(web: Web, url: Url, depth: nat, maxDepth: int, links: seq<Href>, nodes: seq<Node>)
    requires depth <= maxDepth
    requires Matches(web, url, depth, maxDepth, links, nodes)
    ensures Items(web, url, links, depth, maxDepth).Some?
    decreases |links|
  {
    if |links| > 0 {
      LinkItemEmits(web, url, links[0], depth, maxDepth);
      if Skips(web, url, depth, maxDepth, links[0]) {
        MatchesCompletes(web, url, depth, maxDepth, links[1..], nodes);
      } else {
        MatchesCompletes(web, url, depth, maxDepth, links[1..], nodes[1..]);
      }
    }
  }

  /**
    The walk of a listed directory: empty when one of its kept links throws; otherwise exactly
    what its kept links produce, in listing order, and nothing else matches them.
  */
  lemma ExploreMatchesListing(web: Web, url: Url, depth: nat, maxDepth: int, hrefs: seq<Href>)
    requires depth <= maxDepth
    requires web.listing(url) == Some(hrefs)
    ensures (exists i :: 0 <= i < |KeepLinks(hrefs)| && Throws(web, url, KeepLinks(hrefs)[i])) ==>
              Explore(web, url, depth, maxDepth) == []
    ensures (forall i :: 0 <= i < |KeepLinks(hrefs)| ==> !Throws(web, url, KeepLinks(hrefs)[i])) ==>
              Matches(web, url, depth, maxDepth, KeepLinks(hrefs), Explore(web, url, depth, maxDepth))
    ensures forall nodes :: Matches(web, url, depth, maxDepth, KeepLinks(hrefs), nodes) ==>
              nodes == Explore(web, url, depth, maxDepth)
  {
    var links := KeepLinks(hrefs);
    ItemsFailIff(web, url, links, depth, maxDepth);
    if Items(web, url, links, depth, maxDepth).Some? {
      ItemsMatch(web, url, links, depth, maxDepth);
    }
    forall nodes | Matches(web, url, depth, maxDepth, links, nodes) ensures nodes == Explore(web, url, depth, maxDepth) {
      MatchesCompletes(web, url, depth, maxDepth, links, nodes);
      ItemsMatch(web, url, links, depth, maxDepth);
      MatchesUnique(web, url, depth, maxDepth, links, nodes, Items(web, url, links, depth, maxDepth).value);
    }
  }

  /** Sequencing two stretches of the loop: an exception in either aborts the whole loop. */
  function Then(x: Option<seq<Node>>, y: Option<seq<Node>>): Option<seq<Node>> {
    match x
    case None => None
    case Some(xs) =>
      match y
      case None => None
      case Some(ys) => Some(xs + ys)
  }

  lemma ThenAssociative(x: Option<seq<Node>>, y: Option<seq<Node>>, z: Option<seq<Node>>)
    ensures Then(x, Then(y, z)) == Then(Then(x, y), z)
  {
    if x.Some? && y.Some? && z.Some? {
      assert x.value + (y.value + z.value) == (x.value + y.value) + z.value;
    }
  }

  /** One turn of the link loop: the first link's nodes, then those of the rest. */
  lemma ItemsUnfold(web: Web, url: Url, links: seq<Href>, depth: nat, maxDepth: int)
    requires depth <= maxDepth && |links| > 0
    ensures Items(web, url, links, depth, maxDepth) ==
              Then(LinkItem(web, url, links[0], depth, maxDepth), Items(web, url, links[1..], depth, maxDepth))
  {
  }

  /** The link loop over `a + b` is the loop over `a` followed by the loop over `b`. */
  lemma {:induction false} ItemsAppend(web: Web, url: Url, a: seq<Href>, b: seq<Href>, depth: nat, maxDepth: int)
    requires depth <= maxDepth
    ensures Items(web, url, a + b, depth, maxDepth) ==
              Then(Items(web, url, a, depth, maxDepth), Items(web, url, b, depth, maxDepth))
    decreases |a|
  {
    if |a| == 0 {
      assert a + b == b;
      assert Items(web, url, a, depth, maxDepth) == Some([]);
      var rb := Items(web, url, b, depth, maxDepth);
      assert rb.Some? ==> [] + rb.value == rb.value;
    } else {
      var ab := a + b;
      assert ab[0] == a[0] && ab[1..] == a[1..] + b;
      ItemsAppend(web, url, a[1..], b, depth, maxDepth);
      ItemsUnfold(web, url, ab, depth, maxDepth);
      ItemsUnfold(web, url, a, depth, maxDepth);
      ThenAssociative(LinkItem(web, url, a[0], depth, maxDepth), Items(web, url, a[1..], depth, maxDepth),
                      Items(web, url, b, depth, maxDepth));
    }
  }

  /** A subfolder whose listing fails contributes nothing, and nothing else. */
  lemma FailedSubfolderContributesNothing(web: Web, url: Url, href: Href, depth: nat, maxDepth: int)
    requires depth <= maxDepth
    requires EndsWith(href, "/")
    requires web.decode(DropTrailingSlash(href)).Some?
    requires web.resolve(href, Base(url)).Some? && web.listing(web.resolve(href, Base(url)).value).None?
    ensures LinkItem(web, url, href, depth, maxDepth) == Some([])
  {
    assert href[|href| - 1] == '/';
    assert |href| >= 4 ==> href[|href| - 4..][3] == '/';
  }

  /** A failing subfolder leaves its siblings' nodes exactly as if it had not been listed. */
  lemma FailedSubfolderLeavesSiblings(web: Web, url: Url, before: seq<Href>, href: Href, after: seq<Href>, depth: nat, maxDepth: int)
    requires depth <= maxDepth
    requires EndsWith(href, "/")
    requires web.decode(DropTrailingSlash(href)).Some?
    requires web.resolve(href, Base(url)).Some? && web.listing(web.resolve(href, Base(url)).value).None?
    ensures Items(web, url, before + [href] + after, depth, maxDepth) == Items(web, url, before + after, depth, maxDepth)
  {
    FailedSubfolderContributesNothing(web, url, href, depth, maxDepth);
    ItemsAppend(web, url, before + [href], after, depth, maxDepth);
    ItemsAppend(web, url, before, [href], depth, maxDepth);
    ItemsAppend(web, url, before, after, depth, maxDepth);
    assert [href][1..] == [];
    match Items(web, url, before, depth, maxDepth)
    case None =>
    case Some(xs) => assert xs + [] == xs;
  }

  /** A link whose name cannot be decoded throws inside the directory's `try`, emptying the whole directory. */
  lemma UndecodableNameEmptiesDirectory(web: Web, url: Url, depth: nat, maxDepth: int, hrefs: seq<Href>, i: nat)
    requires depth <= maxDepth
    requires web.listing(url) == Some(hrefs)
    requires i < |KeepLinks(hrefs)| && web.decode(DropTrailingSlash(KeepLinks(hrefs)[i])).None?
    ensures Explore(web, url, depth, maxDepth) == []
  {
    assert Throws(web, url, KeepLinks(hrefs)[i]);
    ExploreMatchesListing(web, url, depth, maxDepth, hrefs);
  }

  /** In a pruned forest a folder needs a level of its own and at least one below it. */
  lemma FoldersNeedTwoLevels(ns: seq<Node>, levels: nat)
    requires NoEmptyFolder(ns) && FitsLevels(ns, levels)
    ensures forall i :: 0 <= i < |ns| && ns[i].Folder? ==> levels >= 2
  {
    forall i | 0 <= i < |ns| && ns[i].Folder? ensures levels >= 2 {
      var c := ns[i].children;
      assert FitsLevels(c, levels - 1) && |c| > 0;
      assert c[0] in c;
    }
  }

  /** With a single level left, the walk holds files only: every folder would be empty and is pruned. */
  lemma LastLevelHoldsOnlyFiles(web: Web, url: Url, depth: nat, maxDepth: int)
    requires depth == maxDepth
    ensures forall i :: 0 <= i < |Explore(web, url, depth, maxDepth)| ==> Explore(web, url, depth, maxDepth)[i].File?
  {
    FoldersNeedTwoLevels(Explore(web, url, depth, maxDepth), 1);
  }

  /** At the last level a folder link yields nothing: its walk is beyond the bound, so it is pruned. */
  lemma {:induction false} FolderLinksAtLastLevelVanish(web: Web, url: Url, links: seq<Href>, depth: nat, maxDepth: int)
    requires depth == maxDepth
    requires forall i :: 0 <= i < |links| ==> EndsWith(links[i], "/")
    ensures Items(web, url, links, depth, maxDepth).Some? ==> Items(web, url, links, depth, maxDepth).value == []
    decreases |links|
  {
    if |links| > 0 {
      var href := links[0];
      assert |href| >= 4 ==> href[|href| - 4..][3] == href[|href| - 1] == '/';
      assert !EndsWith(href, AudioExtension);
      LinkItemEmits(web, url, href, depth, maxDepth);
      ItemsUnfold(web, url, links, depth, maxDepth);
      FolderLinksAtLastLevelVanish(web, url, links[1..], depth, maxDepth);
    }
  }

  /** With no level below it, a directory that lists only subfolders yields an empty tree. */
  lemma OnlySubfoldersAtLastLevelIsEmpty(web: Web, url: Url, depth: nat, maxDepth: int, hrefs: seq<Href>)
    requires depth == maxDepth
    requires web.listing(url) == Some(hrefs)
    requires forall i :: 0 <= i < |hrefs| ==> EndsWith(hrefs[i], "/")
    ensures Explore(web, url, depth, maxDepth) == []
  {
    var links := KeepLinks(hrefs);
    FolderLinksAtLastLevelVanish(web, url, links, depth, maxDepth);
  }

  /**
    When every decoded segment but the last is non-empty, the title is all decoded segments
    joined with " - ", the last one with its first ".mp3" removed.
  */
  lemma TitleIsJoinedPath(web: Web, fullUrl: Url, decoded: seq<string>)
    requires DecodeAll(TitleSegments(Split(web.pathname(fullUrl), '/')), web.decode) == Some(decoded)
    requires |decoded| > 0
    requires forall i :: 0 <= i < |decoded| - 1 ==> decoded[i] != ""
    ensures TitleOf(web, fullUrl) ==
              Some(Join(decoded[..|decoded| - 1] + [ReplaceFirst(decoded[|decoded| - 1], AudioExtension, "")], " - "))
  {
    var folders := decoded[..|decoded| - 1];
    JoinSnoc(folders, ReplaceFirst(decoded[|decoded| - 1], AudioExtension, ""), " - ");
    JoinEmptyIff(folders, " - ");
  }
}
