/**
  The single-flight audio cache of `useAudioCache`: a FIFO queue of URLs drained by one
  worker, a set of cached URLs, and the IndexedDB object store (modelled as a map keyed by url).
  Every public operation is an atomic transition on `CacheState`; the network fetch and the
  store write of one worker step are abstracted into an `Attempt` outcome.
*/
module AudioCache {
  import opened Wrappers

  type Url = string

  /** The payload a successful download produced (`response.blob()`): its size in bytes and MIME type. */
  datatype Blob = Blob(size: nat, mimeType: string)

  /** One record of the `audioFiles` object store; `blob` and `size` may be missing in records written by others. */
  datatype Entry = Entry(blob: Option<Blob>, cachedAt: int, size: Option<nat>, mimeType: string)

  /** Whether one IndexedDB request succeeds (`onsuccess`) or fails (`onerror`). */
  datatype Txn = Commits | Aborts

  /** The rejection of a store request, surfaced to the caller of a direct store operation. */
  datatype StorageError = StorageError

  /**
    The outcome of one worker download: the blob was fetched and written at time `at`,
    or something failed (rejected fetch, non-OK response, unreadable body, failed write).
  */
  datatype Attempt = Stored(blob: Blob, at: int) | Failed

  /** The shared cache state: the URL being downloaded, the pending queue, the cached set and the store. */
  datatype CacheState = CacheState(
    currentlyCaching: Option<Url>,
    queue: seq<Url>,
    cachedUrls: set<Url>,
    store: map<Url, Entry>)

  /** What `getCacheStatus` reports for a URL. */
  datatype Status = Caching | Queued | Cached | NotCached

  /** What `getAudio` hands back: a local object-URL handle on the stored blob, or the URL itself. */
  datatype Playable = LocalHandle(blob: Blob) | Passthrough(url: Url)

  predicate NoDuplicates(q: seq<Url>) {
    forall i, j :: 0 <= i < j < |q| ==> q[i] != q[j]
  }

  /**
    The invariant every operation keeps: the queue has no duplicates, no queued URL is cached,
    the URL in flight (if any) is the head of the queue, and the cached set mirrors the store's keys.
  */
  predicate Valid(s: CacheState) {
    && NoDuplicates(s.queue)
    && (forall i :: 0 <= i < |s.queue| ==> s.queue[i] !in s.cachedUrls)
    && (s.currentlyCaching.Some? ==> |s.queue| > 0 && s.currentlyCaching.value == s.queue[0])
    && s.cachedUrls == s.store.Keys
  }

  /** The worker is not running and nothing waits. */
  predicate Idle(s: CacheState) {
    s.currentlyCaching.None? && s.queue == []
  }

  /** The state once the database is open and `loadCachedUrls` has read the store's keys. */
  function Open(store: map<Url, Entry>): (s: CacheState)
    ensures Valid(s) && Idle(s)
    ensures s.store == store
  {
    CacheState(None, [], store.Keys, store)
  }

  /** `isCached`: membership in the cached set, which under the invariant is membership in the store. */
  function IsCached(s: CacheState, url: Url): (b: bool)
    ensures Valid(s) ==> (b <==> url in s.store)
  {
    url in s.cachedUrls
  }

  /** `getCacheStatus`: caching beats queued, queued beats cached, cached beats not-cached. */
  function GetCacheStatus(s: CacheState, url: Url): (st: Status)
    ensures Valid(s) ==> (st == Caching <==> s.currentlyCaching.Some? && s.queue[0] == url)
    ensures Valid(s) ==> (st == Queued <==> url in s.queue && !(s.currentlyCaching.Some? && s.queue[0] == url))
    ensures Valid(s) ==> (st == Cached <==> url in s.store)
    ensures Valid(s) ==> (st == NotCached <==> url !in s.queue && url !in s.store)
  {
    if s.currentlyCaching == Some(url) then Caching
    else if url in s.queue then Queued
    else if IsCached(s, url) then Cached
    else NotCached
  }

  /** The status priority holds in every state, even one where a URL is both in flight and cached. */
  lemma StatusPriority(s: CacheState, url: Url)
    ensures s.currentlyCaching == Some(url) ==> GetCacheStatus(s, url) == Caching
    ensures s.currentlyCaching != Some(url) && url in s.queue ==> GetCacheStatus(s, url) == Queued
    ensures s.currentlyCaching != Some(url) && url !in s.queue && url in s.cachedUrls ==> GetCacheStatus(s, url) == Cached
    ensures GetCacheStatus(s, url) == NotCached <==>
              s.currentlyCaching != Some(url) && url !in s.queue && url !in s.cachedUrls
  {
  }

  /** The record the worker writes for a successful download. */
  function EntryOf(a: Attempt): (e: Entry)
    requires a.Stored?
    ensures e.blob == Some(a.blob) && e.size == Some(a.blob.size)
    ensures e.cachedAt == a.at && e.mimeType == a.blob.mimeType
  {
    Entry(Some(a.blob), a.at, Some(a.blob.size), a.blob.mimeType)
  }

  /** First half of a worker iteration: the head of the queue becomes the URL in flight. */
  function Begin(s: CacheState): (r: CacheState)
    requires |s.queue| > 0
    ensures r.currentlyCaching == Some(s.queue[0])
    ensures r.queue == s.queue && r.cachedUrls == s.cachedUrls && r.store == s.store
    ensures Valid(s) ==> Valid(r)
    ensures GetCacheStatus(r, s.queue[0]) == Caching
  {
    s.(currentlyCaching := Some(s.queue[0]))
  }

  /**
    Second half of a worker iteration: on success the record is put and the URL joins the
    cached set; on failure nothing is stored and there is no retry. Either way the head is
    shifted off the queue and nothing is in flight.
  */
  function Finish(s: CacheState, a: Attempt): (r: CacheState)
    requires |s.queue| > 0
    ensures r.queue == s.queue[1..] && r.currentlyCaching.None?
    ensures a.Stored? ==> r.cachedUrls == s.cachedUrls + {s.queue[0]}
    ensures a.Stored? ==> r.store.Keys == s.store.Keys + {s.queue[0]} && r.store[s.queue[0]] == EntryOf(a)
    ensures a.Stored? ==> forall u :: u in s.store && u != s.queue[0] ==> r.store[u] == s.store[u]
    ensures a.Failed? ==> r.cachedUrls == s.cachedUrls && r.store == s.store
    ensures Valid(s) ==> Valid(r)
  {
    var url := s.queue[0];
    var s' := s.(queue := s.queue[1..], currentlyCaching := None);
    match a
    case Stored(_, _) => s'.(store := s.store[url := EntryOf(a)], cachedUrls := s.cachedUrls + {url})
    case Failed => s'
  }

  /** One full iteration of `processCacheQueue` on the head of the queue. */
  function Step(s: CacheState, a: Attempt): (r: CacheState)
    requires |s.queue| > 0
    ensures r.queue == s.queue[1..] && r.currentlyCaching.None?
    ensures Valid(s) ==> Valid(r)
  {
    Finish(Begin(s), a)
  }

  /** The URLs of `q` whose download succeeds. */
  function Succeeded(q: seq<Url>, attempt: Url -> Attempt): set<Url> {
    set i | 0 <= i < |q| && attempt(q[i]).Stored? :: q[i]
  }

  /**
    `processCacheQueue`: step until the queue is empty. `attempt` gives each URL's download
    outcome (a queue without duplicates meets each URL once).
  */
  function Drain(s: CacheState, attempt: Url -> Attempt): (r: CacheState)
    ensures r.queue == []
    ensures |s.queue| > 0 ==> r.currentlyCaching.None?
    ensures r.cachedUrls == s.cachedUrls + Succeeded(s.queue, attempt)
    ensures r.store.Keys == s.store.Keys + Succeeded(s.queue, attempt)
    ensures forall u :: u in Succeeded(s.queue, attempt) ==> r.store[u] == EntryOf(attempt(u))
    ensures forall u :: u in s.store && u !in Succeeded(s.queue, attempt) ==> r.store[u] == s.store[u]
    ensures Valid(s) ==> Valid(r)
    decreases |s.queue|
  {
    if |s.queue| == 0 then s
    else
      var next := Step(s, attempt(s.queue[0]));
      assert Succeeded(s.queue, attempt) ==
        Succeeded(s.queue[1..], attempt) + (if attempt(s.queue[0]).Stored? then {s.queue[0]} else {}) by {
        var q := s.queue;
        forall u | u in Succeeded(q, attempt)
          ensures u in Succeeded(q[1..], attempt) + (if attempt(q[0]).Stored? then {q[0]} else {})
        {
          var i :| 0 <= i < |q| && attempt(q[i]).Stored? && q[i] == u;
          if i > 0 { assert q[1..][i - 1] == u; }
        }
        forall u | u in Succeeded(q[1..], attempt) ensures u in Succeeded(q, attempt) {
          var i :| 0 <= i < |q[1..]| && attempt(q[1..][i]).Stored? && q[1..][i] == u;
          assert q[i + 1] == u;
        }
      }
      Drain(next, attempt)
  }

  /**
    `cacheAudio`: an already-cached URL is a satisfied no-op (true); a URL in flight or queued
    is a suppressed duplicate (false); otherwise the URL is appended at the tail of the queue
    and, when no worker is running, the whole queue is drained before returning true.
  */
  function CacheAudio(s: CacheState, url: Url, attempt: Url -> Attempt): (r: (CacheState, bool))
    ensures url in s.cachedUrls ==> r == (s, true)
    ensures url !in s.cachedUrls && (s.currentlyCaching == Some(url) || url in s.queue) ==> r == (s, false)
    ensures url !in s.cachedUrls && s.currentlyCaching != Some(url) && url !in s.queue ==> r.1
    ensures url !in s.cachedUrls && url !in s.queue && s.currentlyCaching.Some? && s.currentlyCaching != Some(url) ==>
              r.0 == s.(queue := s.queue + [url])
    ensures url !in s.cachedUrls && url !in s.queue && s.currentlyCaching.None? ==>
              r.0 == Drain(s.(queue := s.queue + [url]), attempt)
    ensures Valid(s) ==> Valid(r.0)
  {
    if IsCached(s, url) then (s, true)
    else if s.currentlyCaching == Some(url) || url in s.queue then (s, false)
    else
      var s' := s.(queue := s.queue + [url]);
      assert Valid(s) ==> Valid(s') by {
        if Valid(s) {
          forall i, j | 0 <= i < j < |s'.queue| ensures s'.queue[i] != s'.queue[j] {
            if j == |s.queue| { assert s.queue[i] in s.queue; }
          }
        }
      }
      if s.currentlyCaching.None? then (Drain(s', attempt), true)
      else (s', true)
  }

  /**
    `getAudio`: a cached URL whose record holds a blob yields a local handle on that blob; a
    failed read, a missing record or an uncached URL yields the URL unchanged.
  */
  function GetAudio(s: CacheState, url: Url, read: Txn): (p: Playable)
    ensures p.Passthrough? ==> p.url == url
    ensures p.LocalHandle? <==> url in s.cachedUrls && read == Commits && url in s.store && s.store[url].blob.Some?
    ensures p.LocalHandle? ==> p.blob == s.store[url].blob.value
  {
    if IsCached(s, url) && read == Commits && url in s.store && s.store[url].blob.Some? then
      LocalHandle(s.store[url].blob.value)
    else Passthrough(url)
  }

  /** `removeCached`: deletes exactly `url` from the store and the cached set; the queue is untouched. */
  function RemoveCached(s: CacheState, url: Url, txn: Txn): (r: Result<CacheState, StorageError>)
    ensures r.Failure? <==> txn == Aborts
    ensures r.Success? ==> r.value.store.Keys == s.store.Keys - {url}
    ensures r.Success? ==> forall u :: u in r.value.store ==> r.value.store[u] == s.store[u]
    ensures r.Success? ==> r.value.cachedUrls == s.cachedUrls - {url}
    ensures r.Success? ==> r.value.queue == s.queue && r.value.currentlyCaching == s.currentlyCaching
    ensures r.Success? && Valid(s) ==> Valid(r.value)
  {
    match txn
    case Aborts => Failure(StorageError)
    case Commits => Success(s.(store := s.store - {url}, cachedUrls := s.cachedUrls - {url}))
  }

  /** `recacheAudio`: remove a cached URL first (a failed delete rejects), then `cacheAudio` it. */
  function RecacheAudio(s: CacheState, url: Url, txn: Txn, attempt: Url -> Attempt): (r: Result<(CacheState, bool), StorageError>)
    ensures url !in s.cachedUrls ==> r == Success(CacheAudio(s, url, attempt))
    ensures url in s.cachedUrls ==> (r.Failure? <==> txn == Aborts)
    ensures url in s.cachedUrls && txn == Commits ==>
              r == Success(CacheAudio(RemoveCached(s, url, txn).value, url, attempt))
    ensures r.Success? && Valid(s) ==> Valid(r.value.0)
  {
    if IsCached(s, url) then
      match RemoveCached(s, url, txn)
      case Failure(e) => Failure(e)
      case Success(s') => Success(CacheAudio(s', url, attempt))
    else Success(CacheAudio(s, url, attempt))
  }

  /** `clearCache`: empties the store and the cached set; the queue and the URL in flight are untouched. */
  function ClearCache(s: CacheState, txn: Txn): (r: Result<CacheState, StorageError>)
    ensures r.Failure? <==> txn == Aborts
    ensures r.Success? ==> r.value.store == map[] && r.value.cachedUrls == {}
    ensures r.Success? ==> r.value.queue == s.queue && r.value.currentlyCaching == s.currentlyCaching
    ensures r.Success? && Valid(s) ==> Valid(r.value)
  {
    match txn
    case Aborts => Failure(StorageError)
    case Commits => Success(s.(store := map[], cachedUrls := {}))
  }

  /** A record's contribution to the cache size: `item.size || 0`. */
  function EntrySize(e: Entry): nat {
    e.size.GetOr(0)
  }

  /** The sum of the sizes of all records, in no particular order. */
  ghost function TotalSize(m: map<Url, Entry>): nat
    decreases |m|
  {
    if m == map[] then 0
    else
      var k :| k in m;
      EntrySize(m[k]) + TotalSize(m - {k})
  }

  /** Any record may be taken out first when summing. */
  lemma {:induction false} TotalSizePick(m: map<Url, Entry>, k: Url)
    requires k in m
    ensures TotalSize(m) == EntrySize(m[k]) + TotalSize(m - {k})
    decreases |m|
  {
    var j :| j in m && TotalSize(m) == EntrySize(m[j]) + TotalSize(m - {j});
    if j != k {
      TotalSizePick(m - {j}, k);
      TotalSizePick(m - {k}, j);
      assert m - {j} - {k} == m - {k} - {j};
    }
  }

  /** Putting a record replaces whatever that key contributed before. */
  lemma TotalSizeUpdate(m: map<Url, Entry>, k: Url, e: Entry)
    ensures TotalSize(m[k := e]) == EntrySize(e) + TotalSize(m - {k})
  {
    TotalSizePick(m[k := e], k);
    assert m[k := e] - {k} == m - {k};
  }

  /** `getCacheSize`: the sum of record sizes over the whole store, or the read's rejection. */
  method GetCacheSize(s: CacheState, txn: Txn) returns (r: Result<nat, StorageError>)
    ensures r.Failure? <==> txn == Aborts
    ensures r.Success? ==> r.value == TotalSize(s.store)
  {
    if txn == Aborts {
      return Failure(StorageError);
    }
    var remaining := s.store;
    var total: nat := 0;
    while remaining != map[]
      invariant total + TotalSize(remaining) == TotalSize(s.store)
      decreases |remaining|
    {
      var k :| k in remaining;
      TotalSizePick(remaining, k);
      total := total + EntrySize(remaining[k]);
      remaining := remaining - {k};
    }
    return Success(total);
  }
}
