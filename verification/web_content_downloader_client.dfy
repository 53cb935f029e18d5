/** `WebContentDownloaderClient`: downloads any content with the retry policy. */
module WebContentDownloaderClient {
  import opened Wrappers
  import opened Text
  import opened Http
  import opened RetryPolicy
  import WebPageDownloaderClient

  /** `HandleFailureCases`: only the status code is checked here. */
  predicate HandleFailureCases(response: Attempt)
    requires response.Response?
  {
    !IsSuccessStatusCode(response.statusCode)
  }

  /** `DownloadAsync(targetUri)`: body and media type of a successful final response,
      whatever the media type; null otherwise. */
  function DownloadAsync(retryCount: nat, responses: Responses): (r: Option<WebContent>)
    ensures var final := Execute(retryCount, responses).final;
      r.Some? <==> final.Response? && IsSuccessStatusCode(final.statusCode)
    ensures var final := Execute(retryCount, responses).final;
      r.Some? ==> r.value == WebContent(final.body, final.mediaType)
  {
    var final := Execute(retryCount, responses).final;
    match final
    case HttpRequestFailure => None
    case OtherFailure => None
    case Response(_, mediaType, body) =>
      if HandleFailureCases(final) then None else Some(WebContent(body, mediaType))
  }

  /** The two generations of client differ only in the content-type filter: the page
      client answers exactly when this one does with an HTML media type. */
  lemma PageClientFiltersContentClient(retryCount: nat, responses: Responses)
    ensures var c := DownloadAsync(retryCount, responses);
      WebPageDownloaderClient.DownloadPageAsync(retryCount, responses)
      == if c.Some? && c.value.contentType.Some?
            && Contains(c.value.contentType.value, WebPageDownloaderClient.HtmlMediaType)
         then Some(c.value.content) else None
  {
  }

  /** The page client discards every response this one discards, and beyond those
      exactly the successful responses whose media type is missing or not HTML. */
  lemma PageClientDiscardsMore(response: Attempt)
    requires response.Response?
    ensures HandleFailureCases(response) ==> WebPageDownloaderClient.HandleFailureCases(response)
    ensures !HandleFailureCases(response) ==>
      (WebPageDownloaderClient.HandleFailureCases(response)
       <==> response.mediaType.None? || !Contains(response.mediaType.value, WebPageDownloaderClient.HtmlMediaType))
  {
  }

  /** A successful JSON response is still returned. */
  lemma NonHtmlContentReturned(retryCount: nat)
    ensures DownloadAsync(retryCount, _ => Response(200, Some("application/json"), "{}"))
         == Some(WebContent("{}", Some("application/json")))
  {
  }
}
