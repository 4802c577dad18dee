# Musical list: audio cache queue and catalog crawler, modelled in Dafny

This project models the two composables that hold the logic of a small music-archive web app:

- **The audio cache** (`useAudioCache`). A shared state holds the URL being downloaded
  (`currentlyCaching`), a FIFO `queue` of URLs waiting to be downloaded, the set `cachedUrls`,
  and the IndexedDB object store `audioFiles`. The store is modelled as a map from URL to
  record. One worker drains the queue, one URL at a time. `cacheAudio` either reports that a
  URL is already cached, refuses a duplicate, or appends the URL to the queue. When no worker
  is running, it then waits for the whole queue to drain. `getCacheStatus` ranks the states
  caching > queued > cached > not-cached. Other operations read, remove or recache a URL, sum
  the sizes of the stored records, or clear the store.
- **The catalog** (`useSambangoTree`). A depth-bounded, depth-first crawl of an Apache-style
  directory listing builds a tree of `File` and `Folder` nodes. The crawl filters links,
  guards against self-loops, classifies `.mp3` and `/` links, derives titles from URL paths
  and prunes empty folders. A navigator walks the tree along a path of folder names. The
  crawled tree is kept in local storage as a snapshot and reused for 24 hours.

Files:

- `wrappers.dfy` (`Wrappers`): `Option` and `Result`.
- `text.dfy` (`Text`): the JavaScript string operations the crawler uses (`startsWith`,
  `endsWith`, `indexOf`, `replace` with a string pattern, `split`, `join`, trailing-slash
  removal), with their round trips.
- `audio_cache.dfy` (`AudioCache`): the cache state, its invariant `Valid`, and every cache
  operation as a transition.
- `audio_cache_laws.dfy` (`AudioCacheLaws`): properties that span several cache operations.
- `catalog.dfy` (`Catalog`): the node tree and the crawler.
- `catalog_laws.dfy` (`CatalogLaws`): where each node comes from, failure isolation, depth
  truncation, and titles.
- `crawl_example.dfy` (`CrawlExample`): one concrete crawl, computed to its result.
- `navigator.dfy` (`Navigator`): `getCurrentFolder` and the path and selection operations.
- `tree_snapshot.dfy` (`TreeSnapshot`): loading with a 24 h TTL, and reloading.

Modelling choices:

- Every public operation is one atomic transition. There is one exception: an iteration of
  the worker loop is split into `Begin` and `Finish`. `Begin` makes the head of the queue the
  URL in flight. `Finish` applies the download outcome and shifts the queue. This keeps the
  "download in progress" state visible, so `cacheAudio` can be called during it: it then only
  enqueues.
- The download, `response.blob()`, `Date.now()` and the store write of one step become an
  `Attempt`: either `Stored(blob, at)` or `Failed`. `Drain` takes one `Attempt` per URL. The
  queue has no duplicates, so one drain meets each URL once.
- Whether an IndexedDB request succeeds is a `Txn` parameter (`Commits` or `Aborts`).
  `getCacheSize`, `removeCached` and `clearCache` reject on a failed request. `getAudio` falls
  back to the original URL.
- The crawler sees the world through a `Web` record of four oracles:
  - `listing`: the anchors' hrefs, or None for a non-OK response or a thrown error;
  - `resolve`: `new URL(href, base).href`, or None when the constructor throws on a malformed link;
  - `pathname`: `new URL(u).pathname`;
  - `decode`: `decodeURIComponent`, or None when it throws.

Behaviour of the code worth knowing:

- The URL being downloaded stays at the head of `queue` until its step finishes: the invariant
  is `currentlyCaching == queue[0]` whenever a download is in flight.
- A file's base title is its last decoded segment with the FIRST `.mp3` removed
  (`String.replace`). That is not always the extension: `a.mp3b.mp3` gives `ab.mp3`.
  `Text.ReplaceFirstStripsSoleSuffix` shows the two agree when `.mp3` occurs only at the end.
- The folder prefix is added when the joined folder path is a non-empty string, rather than
  whenever folder segments remain. The two agree when every decoded segment is non-empty (`CatalogLaws.TitleIsJoinedPath`).
- A failing subfolder does leave its siblings alone. But an exception while processing any
  single link throws inside the directory's `try` and empties the WHOLE directory. Such
  exceptions are a link the URL constructor rejects, an undecodable name, and a title with no
  segment left (`CatalogLaws.Throws`, `CatalogLaws.ExploreMatchesListing`).
- `loadSambangoTree` reads the clock twice: once for the freshness test and once after the
  crawl, and it is the second reading that is stored (`TreeSnapshot.LoadTree` takes both).

Helpers without a row of their own: `Text.Join` (the `join` of the title's folder segments,
stated by `Text.JoinSnoc`, `Text.JoinEmptyIff`, `Text.SplitJoin` and `Text.JoinSplit`), `Navigator.Walk` (the loop
of `getCurrentFolder`, stated by `Navigator.GetCurrentFolder`, `Navigator.WalkSnoc` and
`Navigator.WalkFailureSticks`), `AudioCache.EntrySize` (the `item.size || 0` of
`getCacheSize`, summed by `AudioCache.TotalSize`), and `Catalog.ForestAppend`.

## Model

| member | source | states |
|---|---|---|
| AudioCache.Open | src/composables/useAudioCache.js:41-56 | once the store's keys are loaded, the cache is idle, its cached set equals the store's keys, and the invariant holds |
| AudioCache.IsCached | src/composables/useAudioCache.js:61-63 | in a valid state, a URL counts as cached exactly when the store holds a record for it |
| AudioCache.GetCacheStatus | src/composables/useAudioCache.js:68-79 | in a valid state the four statuses partition URLs: caching = the head in flight, queued = in the queue otherwise, cached = in the store, not-cached = neither |
| AudioCache.StatusPriority | src/composables/useAudioCache.js:68-79 | in any state, even an inconsistent one: caching wins over queued, queued over cached, cached over not-cached; not-cached exactly when the URL is in none of the three |
| AudioCache.EntryOf | src/composables/useAudioCache.js:131-137 | the record written for a download holds its blob, the download time as `cachedAt`, the blob's size, and the blob's MIME type |
| AudioCache.Begin | src/composables/useAudioCache.js:114-116 | the head of the queue becomes the URL in flight and reports status caching; nothing else changes and the invariant is kept |
| AudioCache.Finish | src/composables/useAudioCache.js:118-153 | the head leaves the queue and nothing is in flight; on success only the head is added to the cached set and the store, with the blob's size, and other records are untouched; on failure the cached set and store are unchanged (no retry); the invariant is kept |
| AudioCache.Step | src/composables/useAudioCache.js:114-153 | one worker iteration shifts exactly the head and clears the URL in flight, keeping the invariant |
| AudioCache.Drain | src/composables/useAudioCache.js:113-155 | draining empties the queue and leaves nothing in flight; the cached set and store gain exactly the URLs whose download succeeded, with their new records; every other record is unchanged; the invariant is kept |
| AudioCache.CacheAudio | src/composables/useAudioCache.js:84-108 | a cached URL returns true and changes nothing; a URL in flight or queued returns false and changes nothing; a fresh URL returns true and is appended at the tail, and the whole queue is drained when no worker was running; the invariant is kept |
| AudioCache.GetAudio | src/composables/useAudioCache.js:160-186 | returns a local handle on the stored blob exactly when the URL is cached, the read succeeds and the record has a blob; otherwise returns the URL unchanged |
| AudioCache.RemoveCached | src/composables/useAudioCache.js:191-206 | rejects exactly when the delete fails; otherwise deletes exactly that URL from the store and the cached set, keeps every other record as it was, and leaves the queue and the URL in flight alone |
| AudioCache.RecacheAudio | src/composables/useAudioCache.js:211-216 | an uncached URL is simply cached; a cached one is first removed (a failed delete rejects), then cached from the resulting state; the invariant is kept |
| AudioCache.ClearCache | src/composables/useAudioCache.js:240-255 | rejects exactly when the clear fails; otherwise empties the store and the cached set and leaves the queue and the URL in flight alone |
| AudioCache.GetCacheSize | src/composables/useAudioCache.js:221-235 | rejects exactly when the read fails; otherwise returns the sum of the record sizes over the whole store, a missing size counting as 0 |
| AudioCacheLaws.DuplicateSuppressed | src/composables/useAudioCache.js:94-97 | caching a URL that is already queued returns false, changes nothing, and the URL stays in the queue exactly once |
| AudioCacheLaws.AdmissionsKeepFifoOrder | src/composables/useAudioCache.js:99-105 | two URLs admitted while a download is in flight join the tail in call order and show as queued |
| AudioCacheLaws.CacheAudioFromIdle | src/composables/useAudioCache.js:99-154 | from an idle cache, caching a new URL returns true and leaves the cache idle; the URL is then cached exactly when its download succeeded, and playback then uses the stored blob (otherwise the URL itself) |
| AudioCacheLaws.StepGrowsSize | src/composables/useAudioCache.js:128-145 | a successful step grows the total cache size by exactly the downloaded blob's size |
| AudioCacheLaws.RemoveShrinksSize | src/composables/useAudioCache.js:197-200 | a removal shrinks the total size by exactly the removed record's size, and by nothing when the URL had no record |
| AudioCacheLaws.RemoveThenNotCached | src/composables/useAudioCache.js:191-206 | after removing a cached URL its status is not-cached and playback passes the URL through |
| AudioCacheLaws.ClearedIsEmpty | src/composables/useAudioCache.js:244-249 | after a clear, every URL neither queued nor in flight is not-cached, and the total size is 0 |
| AudioCacheLaws.RecacheRefreshes | src/composables/useAudioCache.js:211-216 | recaching a cached URL from an idle cache succeeds and ends cached, with a record carrying the NEW blob's size; every other record is unchanged |
| Text.IndexOf | src/composables/useSambangoTree.js:104 | the result is the first index where the needle occurs, and None exactly when it occurs nowhere |
| Text.ReplaceFirst | src/composables/useSambangoTree.js:104 | a string pattern that does not occur leaves the string unchanged; otherwise the result is the text before its first occurrence, the replacement, and the text after that occurrence |
| Text.ReplaceFirstStripsSoleSuffix | src/composables/useSambangoTree.js:104 | when ".mp3" occurs only as the suffix, removing its first occurrence and appending ".mp3" again restores the file name |
| Text.DropTrailingSlash | src/composables/useSambangoTree.js:88 | adding back the removed slash, if there was one, restores the href |
| Text.Split | src/composables/useSambangoTree.js:100 | splitting yields at least one piece and no piece contains the separator |
| Text.SplitJoin | src/composables/useSambangoTree.js:100 | joining the pieces of a split with the separator restores the path |
| Text.JoinSplit | src/composables/useSambangoTree.js:100 | splitting a join of separator-free pieces restores the pieces |
| Text.JoinSnoc | src/composables/useSambangoTree.js:105 | joining one more piece appends the separator and the piece, except after no pieces at all |
| Text.JoinEmptyIff | src/composables/useSambangoTree.js:105-106 | a join of non-empty pieces is the empty string exactly when there are no pieces, so the folder prefix is added exactly when folder segments remain |
| Catalog.KeepLinks | src/composables/useSambangoTree.js:69-72 | a link is kept exactly when it is non-empty, not "../", and does not start with "?", "#" or "/"; kept links stay in page order |
| Catalog.KeepLinksCount | src/composables/useSambangoTree.js:69-72 | every occurrence of a kept href survives the filter, and no occurrence of a dropped one |
| Catalog.KeepLinksAppend | src/composables/useSambangoTree.js:69-72 | filtering a concatenation is filtering each part; with `KeepLinksSingle` this fixes the filter's result on every listing |
| Catalog.KeepLinksSingle | src/composables/useSambangoTree.js:69-72 | a one-link listing keeps its link exactly when the link passes the filter |
| Catalog.Base | src/composables/useSambangoTree.js:84 | a URL already ending in "/" is its own base; any other URL gets "/" appended |
| Catalog.TitleSegments | src/composables/useSambangoTree.js:100 | exactly the non-empty path segments other than "ritmos" are kept, in path order |
| Catalog.TitleSegmentsCount | src/composables/useSambangoTree.js:100 | every occurrence of a kept segment survives, so a repeated folder name appears as often in the title as in the path |
| Catalog.TitleSegmentsAppend | src/composables/useSambangoTree.js:100 | filtering a concatenation of segments is filtering each part |
| Catalog.TitleSegmentsSingle | src/composables/useSambangoTree.js:100 | one segment is kept exactly when it is non-empty and not "ritmos" |
| Catalog.TitleOf | src/composables/useSambangoTree.js:99-106 | title derivation throws exactly when a path segment cannot be decoded or no segment remains |
| Catalog.DecodeAll | src/composables/useSambangoTree.js:103 | decoding succeeds exactly when every segment decodes, and then yields each segment's decoding in place |
| Catalog.Explore | src/composables/useSambangoTree.js:39-134 | beyond the depth bound, or when the listing fails, the directory yields []; no folder anywhere in the result is empty; nesting never exceeds the levels left to the bound; no node points back at the directory or its slash form (which nodes appear is stated by `CatalogLaws.ExploreMatchesListing`) |
| Catalog.Items | src/composables/useSambangoTree.js:76-129 | when no link throws, each link gives at most one node; the nodes are pruned, within the depth bound, and free of self-loops (which nodes appear is stated by `CatalogLaws.ItemsMatch`) |
| Catalog.LinkItem | src/composables/useSambangoTree.js:78-125 | one link yields at most one node; that node is pruned, within the depth bound, and does not point back at the directory (which node it is is stated by `CatalogLaws.LinkItemEmits`) |
| CatalogLaws.LinkItemEmits | src/composables/useSambangoTree.js:84-125 | a link throws exactly when it cannot be resolved, its name cannot be decoded, or it is an ".mp3" link (not the directory) without a title; it yields nothing exactly when it points back at the directory, has neither suffix, or is a "/" link with an empty deeper walk; and it yields node n exactly when n has the resolved URL and decoded name and is the File with the derived title (".mp3" link) or the Folder with the non-empty deeper walk ("/" link) |
| CatalogLaws.ItemsFailIff | src/composables/useSambangoTree.js:78-133 | the loop over the links aborts exactly when one of the links throws |
| CatalogLaws.ItemsMatch | src/composables/useSambangoTree.js:76-126 | when the loop completes, each link in turn is either skipped or emits the next node, and the nodes are nothing else |
| CatalogLaws.MatchesUnique | src/composables/useSambangoTree.js:76-126 | the links determine the nodes: at most one sequence of nodes matches them |
| CatalogLaws.MatchesCompletes | src/composables/useSambangoTree.js:78-126 | links that match some nodes contain no throwing link, so the loop completes |
| CatalogLaws.ExploreMatchesListing | src/composables/useSambangoTree.js:69-133 | a listed directory's walk is [] when a kept link throws; otherwise it is what its kept links produce in listing order, and it is the only node sequence that matches them |
| CatalogLaws.ItemsAppend | src/composables/useSambangoTree.js:78-126 | the loop over two stretches of links is the loop over the first followed by the loop over the second; an exception in either aborts both |
| CatalogLaws.FailedSubfolderContributesNothing | src/composables/useSambangoTree.js:114-124 | a subfolder whose listing fails yields no node and no exception |
| CatalogLaws.FailedSubfolderLeavesSiblings | src/composables/useSambangoTree.js:114-124 | a subfolder whose listing fails leaves the directory's other nodes exactly as if it were not listed |
| CatalogLaws.UndecodableNameEmptiesDirectory | src/composables/useSambangoTree.js:78-133 | one kept link whose name cannot be decoded makes the whole directory yield [] |
| CatalogLaws.FoldersNeedTwoLevels | src/composables/useSambangoTree.js:116-124 | in a pruned tree within a level bound, a folder needs at least two levels |
| CatalogLaws.LastLevelHoldsOnlyFiles | src/composables/useSambangoTree.js:40-43 | at the last level the bound allows, the walk yields files only |
| CatalogLaws.FolderLinksAtLastLevelVanish | src/composables/useSambangoTree.js:114-124 | at the last level, a run of folder links yields no nodes |
| CatalogLaws.OnlySubfoldersAtLastLevelIsEmpty | src/composables/useSambangoTree.js:40-43 | at the last level, a directory listing only subfolders yields an empty tree (maxDepth 0 on a root of folders gives []) |
| CatalogLaws.TitleIsJoinedPath | src/composables/useSambangoTree.js:99-106 | when every decoded folder segment is non-empty, the title is all decoded segments joined with " - ", the last one with its first ".mp3" removed |
| CrawlExample.TitleY | src/composables/useSambangoTree.js:99-106 | the file at path /ritmos/A/y.mp3 gets the title "A - y" |
| CrawlExample.ExampleCrawl | src/composables/useSambangoTree.js:39-134 | a root listing A/, B/, x.mp3 (plus a sort link and "../"), with A listing y.mp3 and B empty, crawls to [Folder A [File y.mp3 "A - y"], File x.mp3 "x"]: B is pruned and listing order is kept |
| Navigator.FindFolder | src/composables/useSambangoTree.js:141 | finds the FIRST folder with that name; None exactly when no folder has it |
| Navigator.CurrentFolder | src/composables/useSambangoTree.js:136-147 | no tree gives no folder; the empty path gives the root list |
| Navigator.GetCurrentFolder | src/composables/useSambangoTree.js:136-147 | the loop over the path returns exactly the contents reached by following a matching folder per name, or null at the first name with no match |
| Navigator.NavigateToFolder | src/composables/useSambangoTree.js:149-151 | the path grows by exactly the given name at its end; tree and selection are untouched |
| Navigator.NavigateBack | src/composables/useSambangoTree.js:153-157 | at the root nothing changes; otherwise the last name is dropped; tree and selection are untouched |
| Navigator.ResetPath | src/composables/useSambangoTree.js:167-169 | the path becomes empty, so the current folder is the whole tree |
| Navigator.SelectMp3File | src/composables/useSambangoTree.js:159-165 | the node becomes the selection; the returned URL is the node's, and the title is the file's title (undefined for a folder) |
| Navigator.ClearSelection | src/composables/useSambangoTree.js:171-173 | no file is selected; tree and path are untouched |
| Navigator.BackUndoesNavigate | src/composables/useSambangoTree.js:149-157 | navigating into a folder and then back restores the navigation state exactly |
| Navigator.WalkSnoc | src/composables/useSambangoTree.js:140-144 | walking one more name is one more first-matching-folder lookup in the contents reached so far |
| Navigator.WalkFailureSticks | src/composables/useSambangoTree.js:140-144 | once a prefix of the path fails to resolve, every longer path fails too |
| Navigator.NavigateShowsChildren | src/composables/useSambangoTree.js:136-151 | entering a folder of the current contents shows its children; entering a missing name shows no folder |
| TreeSnapshot.Crawl | src/composables/useSambangoTree.js:25 | the crawl from the root (depth 0, bound 3) is pruned and at most four levels deep |
| TreeSnapshot.LoadTree | src/composables/useSambangoTree.js:9-37 | the stored tree is used without crawling exactly when both entries are present and now − savedAt < 86 400 000 ms; otherwise the crawl result is shown and stored with the clock reading taken after the crawl; path and selection are untouched |
| TreeSnapshot.ReloadTree | src/composables/useSambangoTree.js:175-187 | a reload always crawls, stores the result with the clock reading taken after the crawl, and resets the path and the selection |
| TreeSnapshot.CrawledTreeReusedWithinTtl | src/composables/useSambangoTree.js:11-30 | a tree whose crawl finished at time t is reused without crawling by any load before t + 24 h, whatever the server answers by then |
| TreeSnapshot.ExpiredSnapshotRecrawls | src/composables/useSambangoTree.js:15-30 | 24 h or more after the save, a load crawls again and restamps the snapshot with the time the crawl finished |

## Left out

- `vite.config.js` (build, dev server, Workbox runtime caching) and `src/main.js`
  (service-worker registration, app mount) contain no program logic and are not part of this
  model.
- Opening the database (`initDB`, schema creation, the `if (!db) await initDB()` guards) is
  not modelled; the store is given as a map. Its name and version are not modelled either.
- The state starts after `loadCachedUrls` has completed (`AudioCache.Open`). In the source,
  `initDB` does not wait for it. A `cacheAudio` that runs before it completes can therefore
  see an empty cached set and download an already-stored URL again. Async interleavings like
  this are not modelled, except for the Begin/Finish split of one worker iteration.
- `AudioCache.CacheAudio`: in the source, the condition that starts the worker is JavaScript
  truthiness (`!currentlyCaching.value`). An empty-string URL in flight would therefore start
  a second worker. The model treats "nothing in flight" as `None`, because an empty URL never
  comes out of the crawler.
- `Date.now()`, `fetch`, `response.blob()`, IndexedDB request failures, `DOMParser`,
  `new URL`, `decodeURIComponent` and `URL.createObjectURL` are parameters or oracles
  (`Attempt`, `Txn`, `Web`, `now`, `doneAt`). The object-URL handle is `LocalHandle(blob)`; releasing
  it is the caller's concern.
- The listing query parameters (`F=0`, `C=N`, `O=A`) are part of the `listing` oracle. That
  oracle answers the same for the same URL throughout one crawl.
- `JSON.stringify`/`JSON.parse` of the stored tree are taken to round-trip. The stored time
  is modelled as an integer, so a `parseInt` that yields NaN is not modelled. Local-storage
  write failures are not modelled, and neither is the `catch` that rethrows them in
  `loadSambangoTree`. `exploreSambangoDirectory` itself never throws.
- The `loadingSambangoTree` flag, Vue reactivity, and console logging are not modelled.
- `Catalog.Explore`, `Catalog.Items`, `Catalog.LinkItem`: their own contracts state only the
  shape of the result (pruned, depth-bounded, no self-loop, at most one node per link). Which
  nodes appear, in both directions, is stated by `CatalogLaws.LinkItemEmits`,
  `CatalogLaws.ItemsMatch` and `CatalogLaws.ExploreMatchesListing`, because those statements
  need the mutual recursion to be complete first.
- Audio extensions other than `.mp3` are not recognised by the crawler, so they are not
  modelled.
