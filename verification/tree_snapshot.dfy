/**
  `loadSambangoTree` and `reloadTree`: the crawled tree is persisted as a snapshot with its
  save time and reused, without crawling, while it is younger than 24 hours.
*/
module TreeSnapshot {
  import opened Wrappers
  import opened Catalog
  import opened Navigator

  /** Validity of a saved snapshot: 24 hours, in milliseconds. */
  const TtlMs: int := 24 * 60 * 60 * 1000

  /** The directory the crawl starts from, at depth 0 with the default depth bound. */
  const CatalogRoot: Url := "https://sambango.com/ritmos"
  const MaxDepth: int := 3

  /** The two local-storage entries: the serialized tree and the time (ms) it was saved. */
  datatype Snapshot = Snapshot(tree: Option<seq<Node>>, savedAt: Option<int>)

  /** Where a load took the tree from. */
  datatype TreeSource = FromSnapshot | FromCrawl

  /** The state after a load: navigation, the stored snapshot, and where the tree came from. */
  datatype Loaded = Loaded(nav: Nav, snapshot: Snapshot, source: TreeSource)

  /** The snapshot's save time is present and less than the TTL before `now`. */
  predicate Fresh(snap: Snapshot, now: int) {
    snap.savedAt.Some? && now - snap.savedAt.value < TtlMs
  }

  /** The crawl of the configured root. */
  function Crawl(web: Web): (r: seq<Node>)
    ensures NoEmptyFolder(r) && FitsLevels(r, 4)
  {
    Explore(web, CatalogRoot, 0, MaxDepth)
  }

  /**
    `loadSambangoTree`: the clock reads `now` for the freshness test and `doneAt` once the crawl
    has finished. A stored tree with a fresh save time is used as is; otherwise the root is
    crawled and the result is stored with the time `doneAt`. The path and the selection are
    left alone.
  */
  function LoadTree(nav: Nav, snap: Snapshot, now: int, doneAt: int, web: Web): (r: Loaded)
    ensures r.source == FromSnapshot <==>
              snap.tree.Some? && snap.savedAt.Some? && now - snap.savedAt.value < 86_400_000
    ensures r.source == FromSnapshot ==> r.nav.tree == snap.tree && r.snapshot == snap
    ensures r.source == FromCrawl ==>
              r.nav.tree == Some(Explore(web, CatalogRoot, 0, 3)) && r.snapshot == Snapshot(r.nav.tree, Some(doneAt))
    ensures r.nav.currentPath == nav.currentPath && r.nav.selected == nav.selected
  {
    if snap.tree.Some? && Fresh(snap, now) then
      Loaded(nav.(tree := snap.tree), snap, FromSnapshot)
    else
      var tree := Crawl(web);
      Loaded(nav.(tree := Some(tree)), Snapshot(Some(tree), Some(doneAt)), FromCrawl)
  }

  /** `reloadTree`: drop the snapshot, reset the tree, path and selection, then load. */
  function ReloadTree(nav: Nav, snap: Snapshot, now: int, doneAt: int, web: Web): (r: Loaded)
    ensures r.source == FromCrawl
    ensures r.nav == Nav(Some(Explore(web, CatalogRoot, 0, 3)), [], None)
    ensures r.snapshot == Snapshot(r.nav.tree, Some(doneAt))
  {
    LoadTree(Nav(None, [], None), Snapshot(None, None), now, doneAt, web)
  }

  /**
    A tree whose crawl finished at `doneAt` is reused by any load less than 24 hours after
    that, whatever the server answers by then.
  */
  lemma CrawledTreeReusedWithinTtl(nav: Nav, snap: Snapshot, now: int, doneAt: int, later: int, web: Web, laterWeb: Web)
    requires LoadTree(nav, snap, now, doneAt, web).source == FromCrawl
    requires later - doneAt < 86_400_000
    ensures LoadTree(LoadTree(nav, snap, now, doneAt, web).nav, LoadTree(nav, snap, now, doneAt, web).snapshot, later, later, laterWeb).source == FromSnapshot
    ensures LoadTree(LoadTree(nav, snap, now, doneAt, web).nav, LoadTree(nav, snap, now, doneAt, web).snapshot, later, later, laterWeb).nav.tree ==
              Some(Explore(web, CatalogRoot, 0, 3))
  {
  }

  /** Once 24 hours have passed since the save, a load crawls again and restamps the snapshot. */
  lemma ExpiredSnapshotRecrawls(nav: Nav, snap: Snapshot, now: int, doneAt: int, web: Web)
    requires snap.savedAt.Some? && now - snap.savedAt.value >= 86_400_000
    ensures LoadTree(nav, snap, now, doneAt, web).source == FromCrawl
    ensures LoadTree(nav, snap, now, doneAt, web).snapshot.savedAt == Some(doneAt)
  {
  }
}
