/** `WebPageDownloaderService.DownloadPage`: scheme gate in front of the page
    repository. */
module WebPageDownloaderService {
  import opened Wrappers
  import opened Text
  import opened Uris
  import opened Config
  import opened Http
  import WebPageRepository

  /** The scheme test both downloader services make, after lower-casing. */
  predicate IsWebScheme(scheme: string) {
    ToLower(scheme) == "http" || ToLower(scheme) == "https"
  }

  /** What one call did: the page or null, the cache afterwards, and how many times the
      repository was called. */
  datatype PageDownload = PageDownload(content: Option<string>, cache: WebPageRepository.PageCache, repositoryCalls: nat)

  /** `DownloadPage(targetUri)`: null for a scheme other than http or https, without
      asking the repository; otherwise the repository's result, with an exception
      turned into null. */
  function DownloadPage(cache: WebPageRepository.PageCache, target: Uri, options: InfrastructureOptions, responses: Responses)
    : (r: PageDownload)
    ensures r.repositoryCalls <= 1
    ensures !IsWebScheme(target.scheme) ==> r == PageDownload(None, cache, 0)
    ensures IsWebScheme(target.scheme) ==>
      var lookup := WebPageRepository.GetWebPageAsync(cache, target, options, responses);
      && r.repositoryCalls == 1
      && r.cache == lookup.cache
      && (lookup.outcome.Returned? ==> r.content == lookup.outcome.value)
      && (lookup.outcome.Threw? ==> r.content == None)
  {
    if ToLower(target.scheme) != "http" && ToLower(target.scheme) != "https" then
      PageDownload(None, cache, 0)
    else
      var lookup := WebPageRepository.GetWebPageAsync(cache, target, options, responses);
      match lookup.outcome
      case Returned(content) => PageDownload(content, lookup.cache, 1)
      case Threw(_) => PageDownload(None, lookup.cache, 1)
  }

  /** `ftp://example.com` is refused without a repository call. */
  lemma FtpRefused(cache: WebPageRepository.PageCache, options: InfrastructureOptions, responses: Responses)
    ensures DownloadPage(cache, Uri("ftp", "example.com", None, "/", ""), options, responses)
         == PageDownload(None, cache, 0)
  {
    assert ToLower("ftp") == "ftp";
  }

  /** The scheme test ignores case: `HTTP` is accepted. */
  lemma UpperCaseSchemeAccepted()
    ensures IsWebScheme("HTTP")
  {
    assert ToLower("HTTP") == "http";
  }
}
