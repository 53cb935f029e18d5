/** `WebPageDownloaderClient`: downloads an HTML page with the retry policy. */
module WebPageDownloaderClient {
  import opened Wrappers
  import opened Text
  import opened Http
  import opened RetryPolicy

  const HtmlMediaType := "text/html"

  /** `HandleFailureCases`: true when the final response must be discarded, i.e. its
      status is not a success or its media type is missing or not HTML. */
  predicate HandleFailureCases(response: Attempt)
    requires response.Response?
  {
    || !IsSuccessStatusCode(response.statusCode)
    || response.mediaType.None?
    || !Contains(response.mediaType.value, HtmlMediaType)
  }

  /** `DownloadPageAsync(targetUri)`: the page text, or null. A final
      `HttpRequestException` is rethrown by the policy, and every exception is
      caught and turned into null. */
  function DownloadPageAsync(retryCount: nat, responses: Responses): (r: Option<string>)
    ensures var final := Execute(retryCount, responses).final;
      r.Some? <==>
        && final.Response?
        && IsSuccessStatusCode(final.statusCode)
        && final.mediaType.Some? && Contains(final.mediaType.value, HtmlMediaType)
    ensures r.Some? ==> r.value == Execute(retryCount, responses).final.body
  {
    var final := Execute(retryCount, responses).final;
    match final
    case HttpRequestFailure => None
    case OtherFailure => None
    case Response(_, _, body) => if HandleFailureCases(final) then None else Some(body)
  }

  /** Three retries against an endpoint that always answers 500: null after four
      attempts. */
  lemma AlwaysServerErrorYieldsNull()
    ensures DownloadPageAsync(3, _ => Response(500, None, "")) == None
  {
    AlwaysFailingEndpoint();
  }
}
