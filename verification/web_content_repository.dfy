/** `WebContentRepository.GetWebPageAsync`: a read-through object cache in front of
    the content client. The cache calls it makes (`GetWebContentAsync`,
    `SetWebContentAsync`) are not on `IDistributedCacheWrapper`; the model gives
    them the obvious map semantics. */
module WebContentRepository {
  import opened Wrappers
  import opened Uris
  import opened Http
  import WebPageRepository
  import WebContentDownloaderClient

  /** The cache of downloaded content, by key. */
  type ContentCache = map<string, WebContent>

  /** What one call did: its result, the cache afterwards, and how many times it read
      the cache and called the client. */
  datatype ContentLookup = ContentLookup(
    result: Option<WebContent>, cache: ContentCache, cacheReads: nat, downloads: nat)

  /** `GetWebPageAsync(targetUri)`. Any cached value is a hit. On a miss the client is
      called once and a non-null result is stored under the key before it is
      returned. The key is the page repository's. */
  function GetWebPageAsync(cache: ContentCache, target: Uri, retryCount: nat, responses: Responses)
    : (r: ContentLookup)
    ensures r.cacheReads == 1
    ensures var key := WebPageRepository.CacheKey(target);
      key in cache ==> r == ContentLookup(Some(cache[key]), cache, 1, 0)
    ensures var key := WebPageRepository.CacheKey(target);
      var content := WebContentDownloaderClient.DownloadAsync(retryCount, responses);
      key !in cache ==>
        && r.downloads == 1
        && r.result == content
        && r.cache == (if content.Some? then cache[key := content.value] else cache)
  {
    var key := WebPageRepository.CacheKey(target);
    if key in cache then
      ContentLookup(Some(cache[key]), cache, 1, 0)
    else
      var content := WebContentDownloaderClient.DownloadAsync(retryCount, responses);
      if content.Some? then ContentLookup(content, cache[key := content.value], 1, 1)
      else ContentLookup(None, cache, 1, 1)
  }

  /** After a successful miss, the next call for the same URI is a hit with no
      download and the same content. */
  lemma {:induction false} HitAfterSuccessfulMiss(cache: ContentCache, target: Uri, retryCount: nat, responses: Responses)
    ensures var first := GetWebPageAsync(cache, target, retryCount, responses);
      var second := GetWebPageAsync(first.cache, target, retryCount, responses);
      first.result.Some? ==>
        && second.downloads == 0 && second.result == first.result && second.cache == first.cache
        && first.downloads + second.downloads <= 1
  {
    var first := GetWebPageAsync(cache, target, retryCount, responses);
    if first.result.Some? {
      assert WebPageRepository.CacheKey(target) in first.cache;
    }
  }
}
