/** Properties relating several `AudioCache` operations: sizes, round trips and the status a caller sees afterwards. */
module AudioCacheLaws {
  import opened Wrappers
  import opened AudioCache

  /** How many times `url` occurs in `q`. */
  function Occurrences(q: seq<Url>, url: Url): nat {
    multiset(q)[url]
  }

  lemma {:induction false} NoDuplicatesOccursOnce(q: seq<Url>, url: Url)
    requires NoDuplicates(q) && url in q
    ensures Occurrences(q, url) == 1
  {
    if q[0] == url {
      assert url !in q[1..] by {
        forall j | 0 <= j < |q[1..]| ensures q[1..][j] != url {
          assert q[j + 1] != q[0];
        }
      }
      assert q == [q[0]] + q[1..];
    } else {
      assert NoDuplicates(q[1..]) by {
        forall i, j | 0 <= i < j < |q[1..]| ensures q[1..][i] != q[1..][j] {
          assert q[i + 1] != q[j + 1];
        }
      }
      NoDuplicatesOccursOnce(q[1..], url);
      assert q == [q[0]] + q[1..];
    }
  }

  /** A one-element queue succeeds exactly when its URL's download does. */
  lemma SucceededSingle(url: Url, attempt: Url -> Attempt)
    ensures Succeeded([url], attempt) == if attempt(url).Stored? then {url} else {}
  {
    var q := [url];
    if attempt(url).Stored? {
      assert q[0] == url;
      assert url in Succeeded(q, attempt);
    }
  }

  /** A second `cacheAudio` of a URL still waiting or in flight returns false and leaves it queued exactly once. */
  lemma DuplicateSuppressed(s: CacheState, url: Url, attempt: Url -> Attempt)
    requires Valid(s)
    requires url in s.queue
    ensures CacheAudio(s, url, attempt) == (s, false)
    ensures Occurrences(s.queue, url) == 1
  {
    NoDuplicatesOccursOnce(s.queue, url);
  }

  /** Admissions made while a download is in flight line up at the tail in call order. */
  lemma AdmissionsKeepFifoOrder(s: CacheState, u: Url, v: Url, attempt: Url -> Attempt)
    requires Valid(s) && s.currentlyCaching.Some?
    requires u != v
    requires u !in s.cachedUrls && u !in s.queue
    requires v !in s.cachedUrls && v !in s.queue
    ensures CacheAudio(CacheAudio(s, u, attempt).0, v, attempt).0.queue == s.queue + [u, v]
    ensures GetCacheStatus(CacheAudio(CacheAudio(s, u, attempt).0, v, attempt).0, v) == Queued
  {
    var s1 := CacheAudio(s, u, attempt).0;
    assert s1.queue == s.queue + [u];
    assert v !in s1.queue;
    assert s1.queue + [v] == s.queue + [u, v];
  }

  /**
    From an idle cache, `cacheAudio` of an uncached URL drains it: the status afterwards is
    cached exactly when the download succeeded, and then `getAudio` plays the stored blob
    instead of passing the URL through.
  */
  lemma CacheAudioFromIdle(s: CacheState, url: Url, attempt: Url -> Attempt)
    requires Valid(s) && Idle(s)
    requires url !in s.cachedUrls
    ensures CacheAudio(s, url, attempt).1
    ensures Idle(CacheAudio(s, url, attempt).0)
    ensures GetCacheStatus(CacheAudio(s, url, attempt).0, url) == if attempt(url).Stored? then Cached else NotCached
    ensures attempt(url).Stored? ==>
              GetAudio(CacheAudio(s, url, attempt).0, url, Commits) == LocalHandle(attempt(url).blob)
    ensures attempt(url).Failed? ==>
              GetAudio(CacheAudio(s, url, attempt).0, url, Commits) == Passthrough(url)
  {
    assert s.queue + [url] == [url];
    SucceededSingle(url, attempt);
  }

  /** A successful worker step grows the cache size by the size of the downloaded blob. */
  lemma StepGrowsSize(s: CacheState, a: Attempt)
    requires Valid(s) && |s.queue| > 0
    requires a.Stored?
    ensures TotalSize(Step(s, a).store) == TotalSize(s.store) + a.blob.size
  {
    var url := s.queue[0];
    assert url !in s.store;
    assert Step(s, a).store == s.store[url := EntryOf(a)];
    TotalSizeUpdate(s.store, url, EntryOf(a));
    assert s.store - {url} == s.store;
  }

  /** A successful removal shrinks the cache size by exactly the removed record's size. */
  lemma RemoveShrinksSize(s: CacheState, url: Url)
    ensures url in s.store ==>
              TotalSize(RemoveCached(s, url, Commits).value.store) + EntrySize(s.store[url]) == TotalSize(s.store)
    ensures url !in s.store ==> TotalSize(RemoveCached(s, url, Commits).value.store) == TotalSize(s.store)
  {
    if url in s.store {
      TotalSizePick(s.store, url);
    } else {
      assert s.store - {url} == s.store;
    }
  }

  /** Removing a cached URL makes it not-cached and makes `getAudio` pass it through. */
  lemma RemoveThenNotCached(s: CacheState, url: Url, read: Txn)
    requires Valid(s) && url in s.store
    ensures GetCacheStatus(RemoveCached(s, url, Commits).value, url) == NotCached
    ensures GetAudio(RemoveCached(s, url, Commits).value, url, read) == Passthrough(url)
  {
    assert url !in s.queue;
  }

  /** After a clear every URL that is neither queued nor in flight is not-cached, and the size is zero. */
  lemma ClearedIsEmpty(s: CacheState, url: Url)
    requires url !in s.queue && s.currentlyCaching != Some(url)
    ensures GetCacheStatus(ClearCache(s, Commits).value, url) == NotCached
    ensures TotalSize(ClearCache(s, Commits).value.store) == 0
  {
  }

  /**
    Recaching a cached URL from an idle cache ends cached again, with a record describing the
    newly downloaded blob (its size, not the old one), and every other record untouched.
  */
  lemma RecacheRefreshes(s: CacheState, url: Url, attempt: Url -> Attempt)
    requires Valid(s) && Idle(s)
    requires url in s.cachedUrls
    requires attempt(url).Stored?
    ensures RecacheAudio(s, url, Commits, attempt).Success?
    ensures RecacheAudio(s, url, Commits, attempt).value.1
    ensures GetCacheStatus(RecacheAudio(s, url, Commits, attempt).value.0, url) == Cached
    ensures RecacheAudio(s, url, Commits, attempt).value.0.store[url].size == Some(attempt(url).blob.size)
    ensures forall u :: u in s.store && u != url ==> RecacheAudio(s, url, Commits, attempt).value.0.store[u] == s.store[u]
  {
    var removed := RemoveCached(s, url, Commits).value;
    assert url !in removed.cachedUrls;
    assert removed.queue + [url] == [url];
    SucceededSingle(url, attempt);
  }
}
