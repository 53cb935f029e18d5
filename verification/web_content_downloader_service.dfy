/** `WebContentDownloaderService.DownloadContent`: scheme gate in front of the content
    repository. */
module WebContentDownloaderService {
  import opened Wrappers
  import opened Text
  import opened Uris
  import opened Config
  import opened Http
  import WebContentRepository
  import WebContentDownloaderClient
  import WebPageDownloaderClient
  import WebPageDownloaderService

  /** What one call did: the content or null, the cache afterwards, and how many times
      the repository was called. */
  datatype ContentDownload = ContentDownload(
    content: Option<WebContent>, cache: WebContentRepository.ContentCache, repositoryCalls: nat)

  /** `DownloadContent(targetUri)`: null for a scheme other than http or https, without
      asking the repository; otherwise the repository's content unchanged. The
      modelled repository raises no exception, so the catch branch adds nothing. */
  function DownloadContent(cache: WebContentRepository.ContentCache, target: Uri, retryCount: nat, responses: Responses)
    : (r: ContentDownload)
    ensures r.repositoryCalls <= 1
    ensures !WebPageDownloaderService.IsWebScheme(target.scheme) ==> r == ContentDownload(None, cache, 0)
    ensures WebPageDownloaderService.IsWebScheme(target.scheme) ==>
      var lookup := WebContentRepository.GetWebPageAsync(cache, target, retryCount, responses);
      r == ContentDownload(lookup.result, lookup.cache, 1)
  {
    if !WebPageDownloaderService.IsWebScheme(target.scheme) then
      ContentDownload(None, cache, 0)
    else
      var lookup := WebContentRepository.GetWebPageAsync(cache, target, retryCount, responses);
      ContentDownload(lookup.result, lookup.cache, 1)
  }

  /** A second call for the same URI, on the cache the first left, gives the same
      content and leaves the cache as it was: a successful download is kept. */
  lemma {:induction false} SecondCallRepeatsFirst(
    cache: WebContentRepository.ContentCache, target: Uri, retryCount: nat, responses: Responses)
    ensures var first := DownloadContent(cache, target, retryCount, responses);
      var second := DownloadContent(first.cache, target, retryCount, responses);
      first.content.Some? ==> second.content == first.content && second.cache == first.cache
  {
    var first := DownloadContent(cache, target, retryCount, responses);
    if first.content.Some? {
      WebContentRepository.HitAfterSuccessfulMiss(cache, target, retryCount, responses);
    }
  }

  /** On empty caches, with a usable time-to-live, the page service answers exactly
      when the content service does with an HTML media type, and with its body. */
  lemma {:induction false} ServicesAgreeOnColdCache(target: Uri, options: InfrastructureOptions, responses: Responses)
    requires options.cacheExpirySeconds.Some? && options.cacheExpirySeconds.value > 0
    ensures var c := DownloadContent(map[], target, options.pollyRetryCount, responses).content;
      WebPageDownloaderService.DownloadPage(map[], target, options, responses).content
      == if c.Some? && c.value.contentType.Some?
            && Contains(c.value.contentType.value, WebPageDownloaderClient.HtmlMediaType)
         then Some(c.value.content) else None
  {
    WebContentDownloaderClient.PageClientFiltersContentClient(options.pollyRetryCount, responses);
  }
}
