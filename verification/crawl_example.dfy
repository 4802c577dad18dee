/** A worked crawl of a three-directory archive, with the filtering, pruning and titling it exercises. */
module CrawlExample {
  import opened Wrappers
  import opened Text
  import opened Catalog
  import CatalogLaws

  const Root: Url := "https://sambango.com/ritmos"
  const Origin: string := "https://sambango.com"

  /** The root lists two folders, a file, a sort link and the parent marker; A lists one file; B is empty. */
  function ExampleListing(u: Url): Option<seq<Href>> {
    if u == Root then Some(["?C=N;O=D", "../", "A/", "B/", "x.mp3"])
    else if u == Root + "/A/" then Some(["y.mp3"])
    else if u == Root + "/B/" then Some([])
    else None
  }

  /** The path of an URL on the archive's origin. */
  function ExamplePathname(u: Url): string {
    if StartsWith(u, Origin) then u[|Origin|..] else u
  }

  /** Relative links resolve by appending to the base; names need no decoding. */
  function ExampleWeb(): Web {
    Web(ExampleListing, (h: Href, b: Url) => Some(b + h), ExamplePathname, (s: string) => Some(s))
  }

  /** The nodes of folder A and of file x.mp3 as the crawl builds them. */
  function FolderA(): Node {
    Folder("A", Root + "/A/", [File("y.mp3", Root + "/A/y.mp3", "A - y")])
  }

  function FileX(): Node {
    File("x.mp3", Root + "/x.mp3", "x")
  }

  lemma ExamplePaths()
    ensures ExamplePathname(Root + "/x.mp3") == "/ritmos/x.mp3"
    ensures ExamplePathname(Root + "/A/y.mp3") == "/ritmos/A/y.mp3"
  {
    assert Root + "/x.mp3" == Origin + "/ritmos/x.mp3";
    assert Root + "/A/y.mp3" == Origin + "/ritmos/A/y.mp3";
  }

  lemma SegmentsX()
    ensures Split("/ritmos/x.mp3", '/') == ["", "ritmos", "x.mp3"]
  {
    var parts := ["", "ritmos", "x.mp3"];
    assert Join(parts, "/") == "/ritmos/x.mp3";
    JoinSplit(parts, '/');
  }

  lemma SegmentsY()
    ensures Split("/ritmos/A/y.mp3", '/') == ["", "ritmos", "A", "y.mp3"]
  {
    var parts := ["", "ritmos", "A", "y.mp3"];
    assert Join(parts, "/") == "/ritmos/A/y.mp3";
    JoinSplit(parts, '/');
  }

  lemma BaseNameX()
    ensures ReplaceFirst("x.mp3", AudioExtension, "") == "x"
  {
    assert "x.mp3"[..4][0] == 'x';
    assert "x.mp3"[1..] == AudioExtension;
  }

  lemma BaseNameY()
    ensures ReplaceFirst("y.mp3", AudioExtension, "") == "y"
  {
    assert "y.mp3"[..4][0] == 'y';
    assert "y.mp3"[1..] == AudioExtension;
  }

  lemma KeptSegments()
    ensures TitleSegments(["", "ritmos", "x.mp3"]) == ["x.mp3"]
    ensures TitleSegments(["", "ritmos", "A", "y.mp3"]) == ["A", "y.mp3"]
  {
    assert TitleSegments(["x.mp3"]) == ["x.mp3"];
    assert TitleSegments(["y.mp3"]) == ["y.mp3"];
    assert TitleSegments(["A", "y.mp3"]) == ["A", "y.mp3"];
  }

  /** With the identity decoder every segment decodes to itself. */
  lemma IdentityDecode(parts: seq<string>)
    ensures DecodeAll(parts, ExampleWeb().decode) == Some(parts)
  {
    var r := DecodeAll(parts, ExampleWeb().decode);
    assert forall i :: 0 <= i < |parts| ==> ExampleWeb().decode(parts[i]) == Some(parts[i]);
    assert r.Some? && |r.value| == |parts|;
    assert forall i :: 0 <= i < |parts| ==> r.value[i] == parts[i];
    assert r.value == parts;
  }

  lemma TitleX()
    ensures TitleOf(ExampleWeb(), Root + "/x.mp3") == Some("x")
  {
    var web := ExampleWeb();
    ExamplePaths();
    SegmentsX();
    KeptSegments();
    BaseNameX();
    var parts := TitleSegments(Split(web.pathname(Root + "/x.mp3"), '/'));
    assert parts == ["x.mp3"];
    IdentityDecode(parts);
  }

  lemma SegmentsOfY()
    ensures TitleSegments(Split(ExampleWeb().pathname(Root + "/A/y.mp3"), '/')) == ["A", "y.mp3"]
  {
    ExamplePaths();
    SegmentsY();
    KeptSegments();
  }

  lemma JoinedY()
    ensures Join(["A", "y.mp3"][..1] + [ReplaceFirst(["A", "y.mp3"][1], AudioExtension, "")], " - ") == "A - y"
  {
    BaseNameY();
    assert ["A", "y.mp3"][..1] + [ReplaceFirst(["A", "y.mp3"][1], AudioExtension, "")] == ["A", "y"];
    assert Join(["A", "y"], " - ") == "A - y";
  }

  lemma TitleY()
    ensures TitleOf(ExampleWeb(), Root + "/A/y.mp3") == Some("A - y")
  {
    SegmentsOfY();
    IdentityDecode(["A", "y.mp3"]);
    CatalogLaws.TitleIsJoinedPath(ExampleWeb(), Root + "/A/y.mp3", ["A", "y.mp3"]);
    JoinedY();
  }

  lemma RootLinks()
    ensures KeepLinks(["?C=N;O=D", "../", "A/", "B/", "x.mp3"]) == ["A/", "B/", "x.mp3"]
  {
    assert StartsWith("?C=N;O=D", "?");
    assert !KeepHref("../");
    assert "A/"[..1] == "A" && "B/"[..1] == "B" && "x.mp3"[..1] == "x";
    assert KeepHref("A/") && KeepHref("B/") && KeepHref("x.mp3");
  }

  lemma ExploreB()
    ensures Explore(ExampleWeb(), Root + "/B/", 1, 3) == []
  {
    assert (Root + "/B/")[|Root| + 1] == 'B' && (Root + "/A/")[|Root| + 1] == 'A';
    assert Root + "/B/" != Root && Root + "/B/" != Root + "/A/";
    assert ExampleListing(Root + "/B/") == Some([]);
  }

  lemma ExploreA()
    ensures Explore(ExampleWeb(), Root + "/A/", 1, 3) == [File("y.mp3", Root + "/A/y.mp3", "A - y")]
  {
    var web := ExampleWeb();
    var dir := Root + "/A/";
    assert dir != Root;
    assert ExampleListing(dir) == Some(["y.mp3"]);
    assert "y.mp3"[..1] == "y";
    assert KeepLinks(["y.mp3"]) == ["y.mp3"];
    assert Base(dir) == dir;
    assert dir + "y.mp3" == Root + "/A/y.mp3";
    assert DropTrailingSlash("y.mp3") == "y.mp3";
    assert EndsWith("y.mp3", AudioExtension);
    TitleY();
    assert LinkItem(web, dir, "y.mp3", 1, 3) == Some([File("y.mp3", Root + "/A/y.mp3", "A - y")]);
  }

  lemma RootLinkA()
    ensures LinkItem(ExampleWeb(), Root, "A/", 0, 3) == Some([FolderA()])
  {
    assert !EndsWith(Root, "/");
    assert Root + "/" + "A/" == Root + "/A/";
    assert DropTrailingSlash("A/") == "A";
    assert !EndsWith("A/", AudioExtension) && EndsWith("A/", "/");
    ExploreA();
  }

  lemma RootLinkB()
    ensures LinkItem(ExampleWeb(), Root, "B/", 0, 3) == Some([])
  {
    assert !EndsWith(Root, "/");
    assert Root + "/" + "B/" == Root + "/B/";
    assert DropTrailingSlash("B/") == "B";
    assert !EndsWith("B/", AudioExtension) && EndsWith("B/", "/");
    ExploreB();
  }

  lemma RootLinkX()
    ensures LinkItem(ExampleWeb(), Root, "x.mp3", 0, 3) == Some([FileX()])
  {
    assert !EndsWith(Root, "/");
    assert Root + "/" + "x.mp3" == Root + "/x.mp3";
    assert DropTrailingSlash("x.mp3") == "x.mp3";
    assert EndsWith("x.mp3", AudioExtension);
    TitleX();
  }

  /** One turn of the link loop: the first link's nodes, then the rest. */
  lemma ItemsStep(links: seq<Href>)
    requires |links| > 0
    ensures Items(ExampleWeb(), Root, links, 0, 3) ==
              CatalogLaws.Then(LinkItem(ExampleWeb(), Root, links[0], 0, 3), Items(ExampleWeb(), Root, links[1..], 0, 3))
  {
  }

  lemma RootLast()
    ensures Items(ExampleWeb(), Root, ["x.mp3"], 0, 3) == Some([FileX()])
  {
    RootLinkX();
    ItemsStep(["x.mp3"]);
    assert ["x.mp3"][1..] == [];
    assert [FileX()] + [] == [FileX()];
  }

  lemma RootTail()
    ensures Items(ExampleWeb(), Root, ["B/", "x.mp3"], 0, 3) == Some([FileX()])
  {
    RootLinkB();
    RootLast();
    ItemsStep(["B/", "x.mp3"]);
    assert ["B/", "x.mp3"][1..] == ["x.mp3"];
    assert [] + [FileX()] == [FileX()];
  }

  lemma RootItems()
    ensures Items(ExampleWeb(), Root, ["A/", "B/", "x.mp3"], 0, 3) == Some([FolderA(), FileX()])
  {
    var links := ["A/", "B/", "x.mp3"];
    RootLinkA();
    RootTail();
    ItemsStep(links);
    assert links[0] == "A/" && links[1..] == ["B/", "x.mp3"];
    assert [FolderA()] + [FileX()] == [FolderA(), FileX()];
  }

  /**
    The root lists A, B and x.mp3 (plus a sort link and the parent marker, both filtered):
    A is kept with its one file, B is pruned as empty, and x.mp3 follows A in listing order.
  */
  lemma ExampleCrawl()
    ensures Explore(ExampleWeb(), Root, 0, 3) ==
              [ Folder("A", Root + "/A/", [File("y.mp3", Root + "/A/y.mp3", "A - y")]),
                File("x.mp3", Root + "/x.mp3", "x") ]
  {
    RootLinks();
    RootItems();
  }
}
