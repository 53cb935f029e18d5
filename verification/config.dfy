/** The run options of the crawler (`CrawlOptions`, `InfrastructureOptions`). */
module Config {
  import opened Wrappers

  /** `CrawlOptions`: every field may be absent. */
  datatype CrawlOptions = CrawlOptions(
    initialCrawlUris: Option<string>,
    outputFilePath: Option<string>,
    maxDepth: Option<int>,
    outputFormat: Option<string>)

  /** `InfrastructureOptions`. The retry count is read with `.Value` when the clients
      are built, so a run that gets this far has one, and Polly only accepts counts
      that are not negative. */
  datatype InfrastructureOptions = InfrastructureOptions(
    cacheExpirySeconds: Option<int>,
    pollyRetryCount: nat)
}
