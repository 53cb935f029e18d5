/** `WebPageRepository.GetWebPageAsync`: a read-through string cache in front of
    the page client. Expiry is not modelled: an entry stays until overwritten. */
module WebPageRepository {
  import opened Wrappers
  import opened Text
  import opened Uris
  import opened Config
  import opened Http
  import WebPageDownloaderClient

  /** A cached page with the time-to-live it was stored with. */
  datatype CacheEntry = CacheEntry(value: string, ttlSeconds: int)

  /** The distributed cache, as the map from keys to entries. */
  type PageCache = map<string, CacheEntry>

  const KeyPrefix := "WebPage_"

  /** The cache key of a page. */
  function CacheKey(target: Uri): (key: string)
    ensures StartsWith(key, KeyPrefix) && key[|KeyPrefix|..] == AbsoluteUri(target)
  {
    KeyPrefix + AbsoluteUri(target)
  }

  /** `GetStringAsync(key)`: null when the key is absent. */
  function CachedString(cache: PageCache, key: string): Option<string> {
    if key in cache then Some(cache[key].value) else None
  }

  /** What one call did: its outcome, the cache afterwards, and how many times it read
      the cache and called the client. */
  datatype PageLookup = PageLookup(
    outcome: Outcome<Option<string>>, cache: PageCache, cacheReads: nat, downloads: nat)

  /** `GetWebPageAsync(targetUri)`. A non-empty cached value is returned as is; a null
      or empty one is a miss. On a miss the client is called once and a non-null
      result is stored with the configured time-to-live, read with `.Value` (null
      throws) and checked by `DistributedCacheEntryOptions` (not positive throws). */
  function GetWebPageAsync(cache: PageCache, target: Uri, options: InfrastructureOptions, responses: Responses)
    : (r: PageLookup)
    ensures r.cacheReads == 1
    ensures var cached := CachedString(cache, CacheKey(target));
      !IsNullOrEmpty(cached) ==> r == PageLookup(Returned(cached), cache, 1, 0)
    ensures var cached := CachedString(cache, CacheKey(target));
      var content := WebPageDownloaderClient.DownloadPageAsync(options.pollyRetryCount, responses);
      IsNullOrEmpty(cached) ==>
        && r.downloads == 1
        && (content.None? ==> r.outcome == Returned(None) && r.cache == cache)
        && (content.Some? && options.cacheExpirySeconds.Some? && options.cacheExpirySeconds.value > 0 ==>
              && r.outcome == Returned(content)
              && r.cache == cache[CacheKey(target) := CacheEntry(content.value, options.cacheExpirySeconds.value)])
        && (content.Some? && (options.cacheExpirySeconds.None? || options.cacheExpirySeconds.value <= 0) ==>
              r.outcome.Threw? && r.cache == cache)
  {
    var key := CacheKey(target);
    var cached := CachedString(cache, key);
    if !IsNullOrEmpty(cached) then
      PageLookup(Returned(cached), cache, 1, 0)
    else
      match WebPageDownloaderClient.DownloadPageAsync(options.pollyRetryCount, responses)
      case None => PageLookup(Returned(None), cache, 1, 1)
      case Some(content) =>
        match options.cacheExpirySeconds
        case None => PageLookup(Threw(NullValue), cache, 1, 1)
        case Some(ttl) =>
          if ttl <= 0 then PageLookup(Threw(ArgumentOutOfRange), cache, 1, 1)
          else PageLookup(Returned(Some(content)), cache[key := CacheEntry(content, ttl)], 1, 1)
  }

  /** Two calls in a row for one URI download at most once when the first returned a
      non-empty page; the second is then served from the cache. (A null page is not
      stored, and an empty one is stored but still reads as a miss.) */
  lemma {:induction false} SecondCallServedFromCache(
    cache: PageCache, target: Uri, options: InfrastructureOptions, responses: Responses)
    ensures var first := GetWebPageAsync(cache, target, options, responses);
      var second := GetWebPageAsync(first.cache, target, options, responses);
      first.outcome.Returned? && first.outcome.value.Some? && first.outcome.value.value != "" ==>
        && first.downloads + second.downloads <= 1
        && second.downloads == 0 && second.outcome == first.outcome && second.cache == first.cache
  {
    var key := CacheKey(target);
    var first := GetWebPageAsync(cache, target, options, responses);
    if first.outcome.Returned? && first.outcome.value.Some? && first.outcome.value.value != "" {
      assert CachedString(first.cache, key) == first.outcome.value;
    }
  }

  /** The empty-string exception: a downloaded empty page is stored but the next call
      downloads again. */
  lemma EmptyPageDownloadedAgain(
    cache: PageCache, target: Uri, options: InfrastructureOptions, responses: Responses)
    requires CacheKey(target) !in cache
    requires WebPageDownloaderClient.DownloadPageAsync(options.pollyRetryCount, responses) == Some("")
    requires options.cacheExpirySeconds.Some? && options.cacheExpirySeconds.value > 0
    ensures var first := GetWebPageAsync(cache, target, options, responses);
      && first.outcome == Returned(Some(""))
      && CacheKey(target) in first.cache
      && GetWebPageAsync(first.cache, target, options, responses).downloads == 1
  {
    var first := GetWebPageAsync(cache, target, options, responses);
    assert CachedString(first.cache, CacheKey(target)) == Some("");
  }
}
