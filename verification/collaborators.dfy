/** What a crawl run is given from outside: parsing, HTML link extraction, the
    network, the configured options and the registered results handlers. */
module Collaborators {
  import opened Uris
  import opened Http
  import opened Config
  import opened UriValidator
  import opened UriExtractorService
  import opened CrawlResultsHandlerFactory

  /** The environment of one crawl run. `network(u)` is the sequence of HTTP attempts a
      request for `u` would see. */
  datatype Env = Env(
    parse: Parser,
    getLinks: HtmlParser,
    network: Uri -> Responses,
    infrastructure: InfrastructureOptions,
    crawl: CrawlOptions,
    resultsHandlers: seq<CrawlResultsHandler>)
}
